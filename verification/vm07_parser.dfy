/**
  `Parser` of `project07-virtual-machine/src/parser.rs`: one VM command
  line split on whitespace into a command type, a first argument and a
  16-bit second argument.

  Only push, pop and the nine arithmetic keywords get a type; every other
  first word gives none. The second word becomes the first argument for
  every line that has one. The second argument is read from the third word
  as soon as there is a second word, so a line of exactly two words
  (`label LOOP`, `goto END`) indexes past the words and panics; a third
  word that is not an `i16` leaves the second argument empty. A line with
  no words at all panics on its first word.
 */
module Vm07Parser {
  import opened Wrappers
  import opened Text
  import opened RustInts

  datatype CommandType =
    CArithmetic | CPush | CPop | CLabel | CGoto | CIf | CFunction | CReturn | CCall

  /** What `Parser::parse` returns. */
  datatype Parsed = Parsed(commandType: Option<CommandType>, arg1: Option<string>, arg2: Option<I16>)

  const ARITHMETIC_KEYWORDS: set<string> := {"add", "sub", "neg", "eq", "gt", "lt", "and", "or", "not"}

  /** `get_command_type` on the first word. */
  function TypeOf(first: string): (t: Option<CommandType>)
    ensures t.Some? <==> first == "push" || first == "pop" || first in ARITHMETIC_KEYWORDS
    ensures t.Some? ==> t.value in {CPush, CPop, CArithmetic}
  {
    if first == "push" then Some(CPush)
    else if first == "pop" then Some(CPop)
    else if first in ARITHMETIC_KEYWORDS then Some(CArithmetic)
    else None
  }

  /** `Parser::parse`: the type, then the first argument, then the second. */
  function Parse(command: string): (r: Result<Parsed, Panic>)
    ensures r.Success? <==> |Words(command)| != 0 && |Words(command)| != 2
    ensures r.Success? ==> var ws := Words(command);
      && r.value.commandType == TypeOf(ws[0])
      && (r.value.arg1.Some? <==> |ws| > 1)
      && (r.value.arg1.Some? ==> r.value.arg1.value == ws[1])
      && (r.value.arg2.Some? <==> |ws| > 2 && ParseI16(ws[2]).Some?)
      && (r.value.arg2.Some? ==> r.value.arg2.value == ParseI16(ws[2]).value)
  {
    var ws := Words(command);
    if |ws| == 0 then Failure(OutOfBounds("splitted_cmd[0]"))
    else
      var commandType := TypeOf(ws[0]);
      var arg1 := if |ws| > 1 then Some(ws[1]) else None;
      if |ws| == 1 then Success(Parsed(commandType, arg1, None))
      else if |ws| == 2 then Failure(OutOfBounds("splitted_cmd[2]"))
      else
        var arg2: Option<I16> := match ParseI16(ws[2]) case Some(i) => Some(i) case None => None;
        Success(Parsed(commandType, arg1, arg2))
  }

  /** Parsing the decimal rendering of a non-negative `i16` gives it back. */
  lemma ParseI16Dec(n: nat)
    requires n <= I16Max
    ensures ParseI16(Dec(n)) == Some(n)
  {
    DecValue(n);
    assert Dec(n)[0] != '+' && Dec(n)[0] != '-';
  }

  /**
    `push segment n` and `pop segment n` written with single spaces parse
    back into their type, segment and index.
   */
  lemma PushPopRoundTrip(keyword: string, segment: string, n: nat)
    requires keyword == "push" || keyword == "pop"
    requires |segment| > 0 && NoWhitespace(segment) && n <= I16Max
    ensures Parse(Unwords([keyword, segment, Dec(n)]))
      == Success(Parsed(Some(if keyword == "push" then CPush else CPop), Some(segment), Some(n)))
  {
    var ws := [keyword, segment, Dec(n)];
    assert ws[0] == keyword && ws[1] == segment && ws[2] == Dec(n);
    assert NoWhitespace(Dec(n)) by {
      forall i | 0 <= i < |Dec(n)| ensures !IsWhitespace(Dec(n)[i]) {
        assert IsDigit(Dec(n)[i]);
      }
    }
    WordsUnwords(ws);
    ParseI16Dec(n);
  }

  /** An arithmetic keyword alone on its line parses with no arguments. */
  lemma ArithmeticRoundTrip(keyword: string)
    requires keyword in ARITHMETIC_KEYWORDS
    ensures Parse(keyword) == Success(Parsed(Some(CArithmetic), None, None))
  {
    assert NoWhitespace(keyword) && |keyword| > 0;
  }

  /**
    Two-word commands cannot be parsed: a label, goto or if-goto with its
    label panics instead of reporting its type.
   */
  /**
    `split_whitespace` splits on every Unicode whitespace character: a tab,
    a no-break space (U+00A0) or an ideographic space (U+3000) after the
    keyword separates it from the segment as a space does.
   */
  lemma AnySeparator(keyword: string, c: char, segment: string, n: nat)
    requires keyword == "push" || keyword == "pop"
    requires IsWhitespace(c)
    requires |segment| > 0 && NoWhitespace(segment) && n <= I16Max
    ensures Parse(keyword + [c] + Unwords([segment, Dec(n)]))
      == Success(Parsed(Some(if keyword == "push" then CPush else CPop), Some(segment), Some(n)))
  {
    var ws := [segment, Dec(n)];
    assert ws[0] == segment && ws[1] == Dec(n);
    assert NoWhitespace(Dec(n)) by {
      forall i | 0 <= i < |Dec(n)| ensures !IsWhitespace(Dec(n)[i]) {
        assert IsDigit(Dec(n)[i]);
      }
    }
    assert NoWhitespace(keyword);
    WordsAfterSeparator(keyword, c, Unwords(ws));
    WordsUnwords(ws);
    ParseI16Dec(n);
  }

  lemma TwoWordsPanic(keyword: string, name: string)
    requires |keyword| > 0 && NoWhitespace(keyword) && |name| > 0 && NoWhitespace(name)
    ensures Parse(Unwords([keyword, name])).Failure?
  {
    var ws := [keyword, name];
    assert ws[0] == keyword && ws[1] == name;
    WordsUnwords(ws);
  }
}
