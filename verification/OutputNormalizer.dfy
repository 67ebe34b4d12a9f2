/** Comparing a program's output with the expected answer: the normalizer of the judge worker
    (services/judge-worker/src/checker.rs) and the one of the default checker component
    (services/judge-worker/default-components/default_checker.cpp). */
module OutputNormalizer {
  import opened Basics

  predicate Blank(c: char) {
    c == ' ' || c == '\t'
  }

  /** `replace` of CRLF by LF. */
  function ReplaceCrLf(s: string): string {
    if s == [] then []
    else if |s| > 1 && s[0] == '\r' && s[1] == '\n' then ['\n'] + ReplaceCrLf(s[2..])
    else [s[0]] + ReplaceCrLf(s[1..])
  }

  /** `replace` of CR by LF. */
  function ReplaceCr(s: string): string {
    if s == [] then [] else [if s[0] == '\r' then '\n' else s[0]] + ReplaceCr(s[1..])
  }

  function Unified(s: string): string {
    ReplaceCr(ReplaceCrLf(s))
  }

  function TrimEnd(line: string): string {
    if line != [] && Blank(line[|line|-1]) then TrimEnd(line[..|line|-1]) else line
  }

  function TrimAll(lines: seq<string>): (out: seq<string>)
    ensures |out| == |lines| && forall i :: 0 <= i < |lines| ==> out[i] == TrimEnd(lines[i])
  {
    if lines == [] then [] else [TrimEnd(lines[0])] + TrimAll(lines[1..])
  }

  function DropEmpty(lines: seq<string>): seq<string> {
    if lines != [] && lines[|lines|-1] == "" then DropEmpty(lines[..|lines|-1]) else lines
  }

  function Lines(s: string): seq<string> {
    TrimAll(Split(s, '\n'))
  }

  function Normal(s: string): seq<string> {
    DropEmpty(Lines(Unified(s)))
  }

  /** `normalize_default_trim`. */
  method NormalizeDefaultTrim(s: string) returns (lines: seq<string>)
    ensures lines == Normal(s)
  {
    lines := Lines(Unified(s));
    while lines != [] && lines[|lines|-1] == ""
      invariant DropEmpty(lines) == Normal(s)
    {
      lines := lines[..|lines|-1];
    }
  }

  /** `normalize` of the default checker: CR and CRLF unified in one pass over the characters,
      lines read one by one as `getline` does. */
  method Normalize(input: string) returns (lines: seq<string>)
    ensures lines == Normal(input)
  {
    var s := UnifyInOnePass(input);
    lines := ReadLines(s);
    EndOfRead(s, lines);
    assert lines + [] == lines;
    if s != [] && s[|s|-1] == '\n' {
      lines := lines + [""];
    }
    while lines != [] && lines[|lines|-1] == ""
      invariant DropEmpty(lines) == Normal(input)
    {
      lines := lines[..|lines|-1];
    }
  }

  method UnifyInOnePass(input: string) returns (s: string)
    ensures s == Unified(input)
  {
    s := "";
    for i := 0 to |input|
      invariant s + Unified(input[i..]) == Unified(input)
    {
      UnifiedStep(input[i..]);
      assert input[i..][1..] == input[i+1..];
      if input[i] == '\r' {
        if i + 1 < |input| && input[i+1] == '\n' { continue; }
        s := s + ['\n'];
      } else {
        s := s + [input[i]];
      }
    }
  }

  /** A CR before an LF adds nothing, any other CR adds an LF. */
  function First(s: string): string
    requires s != []
  {
    if s[0] != '\r' then [s[0]] else if |s| > 1 && s[1] == '\n' then [] else ['\n']
  }

  lemma UnifiedStep(s: string)
    requires s != []
    ensures Unified(s) == First(s) + Unified(s[1..])
  {
    if |s| > 1 && s[0] == '\r' && s[1] == '\n' {
      assert s[1..][1..] == s[2..];
      assert ReplaceCrLf(s[1..]) == ['\n'] + ReplaceCrLf(s[2..]);
      ReplaceCrStep('\n', ReplaceCrLf(s[2..]));
    } else {
      ReplaceCrStep(s[0], ReplaceCrLf(s[1..]));
    }
  }

  lemma ReplaceCrStep(c: char, s: string)
    ensures ReplaceCr([c] + s) == [if c == '\r' then '\n' else c] + ReplaceCr(s)
  {
    assert ([c] + s)[1..] == s;
  }

  /** What is still to come when the reader stands at `p`. */
  ghost function Unread(s: string, p: nat): seq<string>
    requires p <= |s|
  {
    if p < |s| then Lines(s[p..]) else if s == [] || s[|s|-1] == '\n' then [""] else []
  }

  method TrimInPlace(text: string) returns (line: string)
    ensures line == TrimEnd(text)
  {
    line := text;
    while line != [] && Blank(line[|line|-1])
      invariant TrimEnd(line) == TrimEnd(text)
    {
      line := line[..|line|-1];
    }
  }

  method LineEnd(s: string, p: nat) returns (q: nat)
    requires p <= |s|
    ensures p <= q <= |s| && '\n' !in s[p..q] && (q < |s| ==> s[q] == '\n')
  {
    q := p;
    while q < |s| && s[q] != '\n'
      invariant p <= q <= |s| && '\n' !in s[p..q]
    {
      q := q + 1;
    }
  }

  lemma Regroup(lines: seq<string>, line: string, rest: seq<string>)
    ensures lines + ([line] + rest) == (lines + [line]) + rest
  {
  }

  /** The `getline` loop, each line trimmed. */
  method ReadLines(s: string) returns (lines: seq<string>)
    ensures lines + Unread(s, |s|) == Lines(s)
  {
    lines := [];
    var p := 0;
    assert Unread(s, 0) == Lines(s) by { assert s[0..] == s; }
    hide Unread, Lines, TrimEnd;
    while p < |s|
      invariant 0 <= p <= |s|
      invariant lines + Unread(s, p) == Lines(s)
    {
      var q := LineEnd(s, p);
      ReadStep(s, p, q);
      var line := TrimInPlace(s[p..q]);
      Regroup(lines, line, Unread(s, if q < |s| then q + 1 else q));
      lines := lines + [line];
      p := if q < |s| then q + 1 else q;
    }
  }

  /** The empty line after a final LF is the one line that the loop does not see. */
  lemma EndOfRead(s: string, lines: seq<string>)
    requires lines + Unread(s, |s|) == Lines(s)
    ensures DropEmpty(Lines(s)) == DropEmpty(lines + if s != [] && s[|s|-1] == '\n' then [""] else [])
  {
    if s == [] {
      assert Lines(s) == [""] && lines == [];
      assert DropEmpty([""]) == [];
    } else if s[|s|-1] != '\n' {
      assert lines + [] == lines;
    }
  }

  lemma ReadStep(s: string, p: nat, q: nat)
    requires p < |s| && p <= q <= |s| && '\n' !in s[p..q]
    requires q < |s| ==> s[q] == '\n'
    ensures Unread(s, p) == [TrimEnd(s[p..q])] + Unread(s, if q < |s| then q + 1 else q)
  {
    SplitFirst(s[p..q], s[q..], '\n');
    assert s[p..] == s[p..q] + s[q..];
    if q < |s| {
      assert s[q..][1..] == s[q+1..];
      if q + 1 == |s| { assert s[q+1..] == []; }
    } else {
      assert s[q..] == [] && s[p..q] == s[p..];
      assert s[p..q][|s[p..q]|-1] == s[|s|-1];
      assert Split(s[p..], '\n') == [s[p..q]];
    }
  }

  /** Lists that normalizing leaves alone: no line break or trailing blank in a line, no empty
      line at the end. */
  ghost predicate Normalized(lines: seq<string>) {
    && (forall i :: 0 <= i < |lines| ==> CleanLine(lines[i]))
    && (lines != [] ==> lines[|lines|-1] != "")
  }

  ghost predicate CleanLine(line: string) {
    '\n' !in line && '\r' !in line && (line != [] ==> line[|line|-1] != ' ' && line[|line|-1] != '\t')
  }

  lemma {:induction false} UnifiedHasNoCr(s: string)
    ensures '\r' !in Unified(s)
    decreases |s|
  {
    if s != [] {
      UnifiedStep(s);
      UnifiedHasNoCr(s[1..]);
    }
  }

  lemma {:induction false} SplitLines(s: string)
    requires '\r' !in s
    ensures forall i :: 0 <= i < |Split(s, '\n')| ==> '\n' !in Split(s, '\n')[i] && '\r' !in Split(s, '\n')[i]
  {
    if s != [] { SplitLines(s[1..]); }
  }

  lemma {:induction false} TrimEndIsClean(line: string)
    requires '\n' !in line && '\r' !in line
    ensures CleanLine(TrimEnd(line))
  {
    if line != [] && Blank(line[|line|-1]) { TrimEndIsClean(line[..|line|-1]); }
  }

  lemma {:induction false} DropEmptyIsPrefix(lines: seq<string>)
    ensures DropEmpty(lines) <= lines
    ensures DropEmpty(lines) != [] ==> DropEmpty(lines)[|DropEmpty(lines)|-1] != ""
  {
    if lines != [] && lines[|lines|-1] == "" { DropEmptyIsPrefix(lines[..|lines|-1]); }
  }

  /** Every result of the normalizers is a normalized list. */
  lemma NormalIsNormalized(s: string)
    ensures Normalized(Normal(s))
  {
    var u := Unified(s);
    UnifiedHasNoCr(s);
    SplitLines(u);
    forall i | 0 <= i < |Lines(u)| ensures CleanLine(Lines(u)[i]) {
      TrimEndIsClean(Split(u, '\n')[i]);
    }
    DropEmptyIsPrefix(Lines(u));
  }

  lemma {:induction false} UnifiedWithoutCr(s: string)
    requires '\r' !in s
    ensures Unified(s) == s
    decreases |s|
  {
    if s != [] {
      UnifiedStep(s);
      UnifiedWithoutCr(s[1..]);
    }
  }

  lemma {:induction false} JoinHasNoCr(lines: seq<string>)
    requires forall i :: 0 <= i < |lines| ==> CleanLine(lines[i])
    ensures '\r' !in Join(lines, '\n')
  {
    if |lines| > 1 { JoinHasNoCr(lines[1..]); }
  }

  lemma CleanIsTrimmed(lines: seq<string>)
    requires forall i :: 0 <= i < |lines| ==> CleanLine(lines[i])
    ensures TrimAll(lines) == lines
  {
    hide TrimAll;
  }

  /** Normalizing the LF-join of a normalized list gives the list back. */
  lemma NormalUndoesJoin(lines: seq<string>)
    requires Normalized(lines)
    ensures Normal(Join(lines, '\n')) == lines
  {
    JoinHasNoCr(lines);
    UnifiedWithoutCr(Join(lines, '\n'));
    hide Unified, Split;
    if lines == [] {
      SplitOne("", '\n');
      CleanIsTrimmed([""]);
      assert DropEmpty([""]) == [];
    } else {
      SplitJoin(lines, '\n');
      CleanIsTrimmed(lines);
    }
  }

  lemma NormalIsIdempotent(s: string)
    ensures Normal(Join(Normal(s), '\n')) == Normal(s)
  {
    NormalIsNormalized(s);
    NormalUndoesJoin(Normal(s));
  }

  lemma UnifiedOne(c: char)
    ensures Unified([]) == [] && Unified([c]) == [if c == '\r' then '\n' else c]
  {
    UnifiedStep([c]);
  }

  /** What a character adds at the end of a text. */
  function Last(s: string, c: char): string {
    if c == '\n' && s != [] && s[|s|-1] == '\r' then "" else [if c == '\r' then '\n' else c]
  }

  lemma {:induction false} UnifiedSnoc(s: string, c: char)
    ensures Unified(s + [c]) == Unified(s) + Last(s, c)
    decreases |s|
  {
    UnifiedOne(c);
    hide Unified;
    if |s| == 0 {
      assert s + [c] == [c] && s == [];
    } else {
      var t := s + [c];
      assert t[1..] == s[1..] + [c];
      UnifiedStep(t);
      UnifiedStep(s);
      UnifiedSnoc(s[1..], c);
      if |s| == 1 {
        assert s[1..] == [];
        assert First(t) + Last([], c) == First(s) + Last(s, c);
      } else {
        assert First(t) == First(s) && Last(s[1..], c) == Last(s, c);
        assert First(s) + (Unified(s[1..]) + Last(s, c)) == First(s) + Unified(s[1..]) + Last(s, c);
      }
    }
  }

  /** A character at the end starts a new line or extends the last one. */
  function Extended(lines: seq<string>, c: char): seq<string>
    requires lines != []
  {
    if c == '\n' then lines + [""] else lines[..|lines|-1] + [lines[|lines|-1] + [c]]
  }

  lemma {:induction false} SplitSnoc(s: string, c: char)
    ensures Split(s + [c], '\n') == Extended(Split(s, '\n'), c)
  {
    if s == [] {
      var one, rest := s + [c], Split((s + [c])[1..], '\n');
      assert one[1..] == s && rest == [""];
      assert Split(one, '\n') == if c == '\n' then [""] + rest else [[c] + rest[0]] + rest[1..];
      assert [c] + "" == "" + [c];
    } else {
      assert (s + [c])[1..] == s[1..] + [c];
      SplitSnoc(s[1..], c);
      ExtendedCons(Split(s[1..], '\n'), s[0], c);
    }
  }

  /** Extending the end and adding a character in front do not interfere. */
  lemma ExtendedCons(lines: seq<string>, d: char, c: char)
    requires lines != []
    ensures Extended([""] + lines, c) == [""] + Extended(lines, c)
    ensures Extended([[d] + lines[0]] + lines[1..], c) == [[d] + Extended(lines, c)[0]] + Extended(lines, c)[1..]
  {
    if |lines| == 1 && c != '\n' {
      assert [d] + (lines[0] + [c]) == [d] + lines[0] + [c];
    }
  }

  lemma TrimExtended(lines: seq<string>, c: char)
    requires lines != [] && (Blank(c) || c == '\n')
    ensures DropEmpty(TrimAll(Extended(lines, c))) == DropEmpty(TrimAll(lines))
  {
    if c == '\n' {
      assert TrimAll(lines + [""]) == TrimAll(lines) + [""];
    } else {
      var line := lines[|lines|-1];
      assert (line + [c])[..|line|] == line;
      assert TrimAll(Extended(lines, c)) == TrimAll(lines);
    }
  }

  /** Spaces, tabs and line breaks at the end of a text do not matter. */
  lemma TrailingSpaceIsIgnored(s: string, c: char)
    requires c == ' ' || c == '\t' || c == '\n' || c == '\r'
    ensures Normal(s + [c]) == Normal(s)
  {
    hide Unified, Split, Extended, TrimAll, DropEmpty;
    UnifiedSnoc(s, c);
    var u := Unified(s);
    if Last(s, c) == "" {
      assert u + "" == u;
    } else {
      var d := Last(s, c)[0];
      SplitSnoc(u, d);
      TrimExtended(Split(u, '\n'), d);
    }
  }

  /** `default_trim_equal`. */
  method DefaultTrimEqual(actual: string, expected: string) returns (equal: bool)
    ensures equal <==> Normal(actual) == Normal(expected)
  {
    var a := NormalizeDefaultTrim(actual);
    var b := NormalizeDefaultTrim(expected);
    return a == b;
  }
}
