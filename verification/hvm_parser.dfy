/**
  The line classifier of the VM translator's parser (`hvm/src/parser.rs`).

  Each source line loses everything from its first "//" and is trimmed;
  empty lines give nothing, one of the nine arithmetic keywords gives an
  `Arithmetic` command, a line starting with "push" or "pop" gives a
  `Push`/`Pop` of its second and third whitespace-separated words, and
  every other line is dropped (the remaining command kinds are not parsed
  yet). Indexing a missing word panics.
 */
module HvmParser {
  import opened Wrappers
  import opened Text

  /** The nine arithmetic-logical commands of the VM language. */
  const ARITHMETIC_COMMANDS: seq<string> := ["add", "sub", "neg", "eq", "gt", "lt", "and", "or", "not"]

  /** The parser's command shape: arguments stay text. */
  datatype Command =
    | Arithmetic(command: string)
    | Push(arg1: string, arg2: string)
    | Pop(arg1: string, arg2: string)
    | Label(arg1: string)
    | Goto(arg1: string)
    | If(arg1: string)
    | Function(arg1: string, arg2: string)
    | Return
    | Call(arg1: string, arg2: string)

  /** The second and third words of a line; a line with fewer words panics. */
  function GetArgs(line: string): (r: Result<(string, string), Panic>)
    ensures r.Success? <==> |Words(line)| >= 3
    ensures r.Success? ==> r.value == (Words(line)[1], Words(line)[2])
  {
    var args := Words(line);
    if |args| < 2 then Failure(OutOfBounds("args[1]"))
    else if |args| < 3 then Failure(OutOfBounds("args[2]"))
    else Success((args[1], args[2]))
  }

  /** The command one source line contributes, if any. */
  function ParseLine(line: string): (r: Result<Option<Command>, Panic>)
    ensures r.Success? && r.value.Some? ==> Clean(line) != ""
    ensures Clean(line) in ARITHMETIC_COMMANDS ==> r == Success(Some(Arithmetic(Clean(line))))
    ensures var l := Clean(line); var w := Words(l);
      l !in ARITHMETIC_COMMANDS && StartsWith(l, "push") && |w| >= 3 ==> r == Success(Some(Push(w[1], w[2])))
    ensures var l := Clean(line); var w := Words(l);
      l !in ARITHMETIC_COMMANDS && !StartsWith(l, "push") && StartsWith(l, "pop") && |w| >= 3 ==> r == Success(Some(Pop(w[1], w[2])))
    ensures (Clean(line) !in ARITHMETIC_COMMANDS
             && !StartsWith(Clean(line), "push") && !StartsWith(Clean(line), "pop")) ==> r == Success(None)
    ensures r.Failure? <==>
      Clean(line) !in ARITHMETIC_COMMANDS
      && (StartsWith(Clean(line), "push") || StartsWith(Clean(line), "pop"))
      && |Words(Clean(line))| < 3
  {
    var l := Clean(line);
    if l == "" then Success(None)
    else if l in ARITHMETIC_COMMANDS then Success(Some(Arithmetic(l)))
    else if StartsWith(l, "push") then
      var (a1, a2) :- GetArgs(l);
      Success(Some(Push(a1, a2)))
    else if StartsWith(l, "pop") then
      var (a1, a2) :- GetArgs(l);
      Success(Some(Pop(a1, a2)))
    else Success(None)
  }

  /** The loop of `parse_file` with the line parser as a parameter: the first panic aborts it. */
  function ParseEach(lines: seq<string>, parse: string -> Result<Option<Command>, Panic>): (r: Result<seq<Command>, Panic>)
    ensures r.Success? ==> |r.value| <= |lines|
  {
    if |lines| == 0 then Success([])
    else
      var c :- parse(lines[0]);
      var rest :- ParseEach(lines[1..], parse);
      Success((if c.Some? then [c.value] else []) + rest)
  }

  /** The loop of `parse_file` over the lines of one file. */
  function ParseLines(lines: seq<string>): Result<seq<Command>, Panic> {
    ParseEach(lines, ParseLine)
  }

  /** Parsing fails exactly when some line panics. */
  lemma {:induction false} ParseEachFailure(lines: seq<string>, parse: string -> Result<Option<Command>, Panic>)
    ensures ParseEach(lines, parse).Failure? <==> exists i | 0 <= i < |lines| :: parse(lines[i]).Failure?
  {
    if |lines| > 0 {
      ParseEachFailure(lines[1..], parse);
      if parse(lines[0]).Success? && ParseEach(lines[1..], parse).Failure? {
        var i :| 0 <= i < |lines[1..]| && parse(lines[1..][i]).Failure?;
        assert lines[1..][i] == lines[i + 1];
      }
      if ParseEach(lines, parse).Success? {
        forall i | 0 <= i < |lines| ensures parse(lines[i]).Success? {
          if i > 0 {
            assert lines[i] == lines[1..][i - 1];
          }
        }
      }
    }
  }

  /** Lines parse independently: the commands of two blocks of lines are concatenated in order. */
  lemma {:induction false} ParseEachAppend(a: seq<string>, b: seq<string>, parse: string -> Result<Option<Command>, Panic>)
    requires ParseEach(a, parse).Success? && ParseEach(b, parse).Success?
    ensures ParseEach(a + b, parse) == Success(ParseEach(a, parse).value + ParseEach(b, parse).value)
  {
    var cb := ParseEach(b, parse).value;
    if |a| == 0 {
      assert a + b == b;
      assert [] + cb == cb;
    } else {
      var c := parse(a[0]).value;
      var head := if c.Some? then [c.value] else [];
      var ca := ParseEach(a[1..], parse).value;
      assert ParseEach(a + b, parse) == Success(head + (ca + cb)) by {
        assert (a + b)[1..] == a[1..] + b;
        ParseEachAppend(a[1..], b, parse);
      }
      assert head + (ca + cb) == (head + ca) + cb;
    }
  }

  /** `ParseEachFailure` for the VM line parser. */
  lemma ParseLinesFailure(lines: seq<string>)
    ensures ParseLines(lines).Failure? <==> exists i | 0 <= i < |lines| :: ParseLine(lines[i]).Failure?
  {
    ParseEachFailure(lines, ParseLine);
  }

  /** `ParseEachAppend` for the VM line parser. */
  lemma ParseLinesAppend(a: seq<string>, b: seq<string>)
    requires ParseLines(a).Success? && ParseLines(b).Success?
    ensures ParseLines(a + b) == Success(ParseLines(a).value + ParseLines(b).value)
  {
    ParseEachAppend(a, b, ParseLine);
  }

  /** A line that is only a comment contributes nothing. */
  lemma CommentLine(text: string)
    ensures ParseLine("//" + text) == Success(None)
  {
    assert CutComment("//" + text) == "";
  }

  /** The two keywords of a memory access command. */
  predicate AccessKeyword(keyword: string) {
    keyword == "push" || keyword == "pop"
  }

  /** A well-formed argument: non-empty, without whitespace or a slash. */
  predicate PlainWord(w: string) {
    |w| > 0 && NoWhitespace(w) && '/' !in w
  }

  /** The text of `keyword segment index` with single spaces. */
  function AccessText(keyword: string, segment: string, index: string): string {
    Unwords([keyword, segment, index])
  }

  function PushText(segment: string, index: string): string {
    AccessText("push", segment, index)
  }

  function PopText(segment: string, index: string): string {
    AccessText("pop", segment, index)
  }

  lemma AccessTextClean(keyword: string, segment: string, index: string)
    requires AccessKeyword(keyword) && PlainWord(segment) && PlainWord(index)
    ensures Clean(AccessText(keyword, segment, index)) == AccessText(keyword, segment, index)
    ensures AccessText(keyword, segment, index) == keyword + " " + (segment + " " + index)
  {
    var line := AccessText(keyword, segment, index);
    assert line == keyword + " " + (segment + " " + index) by {
      assert [segment, index][1..] == [index];
      assert Unwords([segment, index]) == segment + " " + index;
      assert [keyword, segment, index][1..] == [segment, index];
    }
    assert '/' !in line by {
      assert '/' !in segment + " " + index;
    }
    CutCommentNoSlash(line);
    TrimNoop(line);
  }

  lemma AccessTextClass(keyword: string, segment: string, index: string)
    requires AccessKeyword(keyword) && |segment| > 0 && |index| > 0
    requires AccessText(keyword, segment, index) == keyword + " " + (segment + " " + index)
    ensures StartsWith(AccessText(keyword, segment, index), keyword)
    ensures StartsWith(AccessText(keyword, segment, index), "push") <==> keyword == "push"
    ensures AccessText(keyword, segment, index) !in ARITHMETIC_COMMANDS
  {
    var line := AccessText(keyword, segment, index);
    assert line[..|keyword|] == keyword;
    assert line[1] == keyword[1];
    assert |line| >= 6;
  }

  lemma AccessTextWords(keyword: string, segment: string, index: string)
    requires AccessKeyword(keyword) && PlainWord(segment) && PlainWord(index)
    ensures Words(AccessText(keyword, segment, index)) == [keyword, segment, index]
  {
    var ws := [keyword, segment, index];
    assert ws[0] == keyword && ws[1] == segment && ws[2] == index;
    assert NoWhitespace(keyword) && |keyword| > 0;
    WordsUnwords(ws);
  }

  /**
    `push segment index` written with single spaces parses back into its two
    arguments, provided neither contains whitespace or a slash.
   */
  lemma PushLine(segment: string, index: string)
    requires PlainWord(segment) && PlainWord(index)
    ensures ParseLine(PushText(segment, index)) == Success(Some(Push(segment, index)))
  {
    AccessTextClean("push", segment, index);
    AccessTextClass("push", segment, index);
    AccessTextWords("push", segment, index);
  }

  /** `pop segment index` written with single spaces parses back into its two arguments. */
  lemma PopLine(segment: string, index: string)
    requires PlainWord(segment) && PlainWord(index)
    ensures ParseLine(PopText(segment, index)) == Success(Some(Pop(segment, index)))
  {
    AccessTextClean("pop", segment, index);
    AccessTextClass("pop", segment, index);
    AccessTextWords("pop", segment, index);
  }

  /** Each arithmetic keyword on a line of its own parses as that command. */
  lemma ArithmeticLine(command: string)
    requires command in ARITHMETIC_COMMANDS
    ensures ParseLine(command) == Success(Some(Arithmetic(command)))
  {
    assert '/' !in command && |command| > 0;
    CutCommentNoSlash(command);
    TrimNoop(command);
  }
}
