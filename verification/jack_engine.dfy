/**
  The token cursor of the Jack `CompilationEngine`
  (`compiler/src/compilation_engine.rs`) and the productions that copy
  tokens up to a delimiter. Tokens are already rendered as XML lines
  (`<keyword> var </keyword>`); the output file is the sequence of lines
  written so far.

  Two kinds of failure are kept apart: `write_token` at the end of the
  tokens returns an `UnexpectedEof` error, while `peek().unwrap()` at the
  end panics. An error is a value the caller receives with the engine still
  in hand, so `UnexpectedEof` carries the engine as it stands then, with
  whatever was already written and consumed. The copying loops check `peek().unwrap()` first, so a missing
  delimiter always ends in the panic.
 */
module JackEngine {
  import opened Wrappers

  const SEMICOLON_SYMBOL := "<symbol> ; </symbol>"
  const CLOSE_PARENTHESIS := "<symbol> ) </symbol>"
  const STATIC := "<keyword> static </keyword>"
  const FIELD := "<keyword> field </keyword>"

  datatype Engine = Engine(tokens: seq<string>, position: nat, output: seq<string>)

  datatype EngineError = UnexpectedEof(state: Engine) | Panicked(panic: Panic)

  /** A new engine: at the first token, nothing written. */
  function NewEngine(tokens: seq<string>): (e: Engine)
    ensures e.tokens == tokens && e.position == 0 && e.output == []
  {
    Engine(tokens, 0, [])
  }

  /** `peek`: the current token, if the position is inside the tokens. */
  function Peek(e: Engine): (r: Option<string>)
    ensures r.Some? <==> e.position < |e.tokens|
    ensures r.Some? ==> r.value == e.tokens[e.position]
  {
    if e.position < |e.tokens| then Some(e.tokens[e.position]) else None
  }

  /** `peek_next_token`: the token after the current one, if any. */
  function PeekNext(e: Engine): (r: Option<string>)
    ensures r.Some? <==> e.position + 1 < |e.tokens|
    ensures r.Some? ==> r.value == e.tokens[e.position + 1]
  {
    if e.position + 1 < |e.tokens| then Some(e.tokens[e.position + 1]) else None
  }

  /** `advance`: the current token, if any; the position moves on in any case. */
  function Advance(e: Engine): (r: (Engine, Option<string>))
    ensures r.1 == Peek(e)
    ensures r.0 == e.(position := e.position + 1)
  {
    (e.(position := e.position + 1), Peek(e))
  }

  /** `write`: one more line of output. */
  function Write(e: Engine, content: string): (r: Engine)
    ensures r.tokens == e.tokens && r.position == e.position && r.output == e.output + [content]
  {
    e.(output := e.output + [content])
  }

  /** `write_token`: copy the current token to the output and advance. */
  function WriteToken(e: Engine): (r: Result<Engine, EngineError>)
    ensures r.Success? <==> e.position < |e.tokens|
    ensures r.Failure? ==> r.error == UnexpectedEof(e)
    ensures r.Success? ==>
      r.value == Engine(e.tokens, e.position + 1, e.output + [e.tokens[e.position]])
  {
    match Peek(e)
    case Some(token) => Success(Write(Advance(e).0, token))
    case None => Failure(UnexpectedEof(e))
  }

  /** `peek().unwrap()` */
  function PeekUnwrap(e: Engine): (r: Result<string, EngineError>)
    ensures r.Success? <==> e.position < |e.tokens|
    ensures r.Success? ==> r.value == e.tokens[e.position]
    ensures r.Failure? ==> r.error.Panicked?
  {
    match Peek(e)
    case Some(token) => Success(token)
    case None => Failure(Panicked(Unwrap("self.peek()")))
  }

  /** `delim` occurs at `k`, and nowhere from `from` up to `k`. */
  predicate FirstFrom(tokens: seq<string>, from: nat, k: nat, delim: string) {
    && from <= k < |tokens| && tokens[k] == delim
    && forall j | from <= j < k :: tokens[j] != delim
  }

  /** `delim` occurs at `from` or after it. */
  predicate OccursFrom(tokens: seq<string>, from: nat, delim: string) {
    exists k | from <= k < |tokens| :: tokens[k] == delim
  }

  /**
    `while self.peek().unwrap() != delim { self.write_token()?; }`: copies
    every token before the first `delim` and stops on it; without a `delim`
    ahead it panics at the end of the tokens.
   */
  function CopyUntil(e: Engine, delim: string): (r: Result<Engine, EngineError>)
    ensures r.Success? <==> OccursFrom(e.tokens, e.position, delim)
    ensures r.Failure? ==> r.error.Panicked?
    ensures r.Success? ==>
      && r.value.tokens == e.tokens
      && FirstFrom(e.tokens, e.position, r.value.position, delim)
      && r.value.output == e.output + e.tokens[e.position..r.value.position]
    decreases |e.tokens| - e.position
  {
    var token :- PeekUnwrap(e);
    if token == delim then
      Success(e)
    else
      // write_token cannot fail: peek has just found a token
      var e1 := WriteToken(e).value;
      var r := CopyUntil(e1, delim);
      assert r.Success? ==> e.tokens[e.position..r.value.position]
        == [e.tokens[e.position]] + e.tokens[e.position + 1..r.value.position];
      assert OccursFrom(e.tokens, e.position, delim) ==> OccursFrom(e.tokens, e.position + 1, delim);
      r
  }

  /** `compile_var_dec`: `<varDec>`, the tokens up to and including the first ';', `</varDec>`. */
  function CompileVarDec(e: Engine): (r: Result<Engine, EngineError>)
    ensures r.Success? <==> OccursFrom(e.tokens, e.position, SEMICOLON_SYMBOL)
    ensures r.Success? ==>
      && r.value.tokens == e.tokens && r.value.position > 0
      && FirstFrom(e.tokens, e.position, r.value.position - 1, SEMICOLON_SYMBOL)
      && r.value.output == e.output + ["<varDec>"] + e.tokens[e.position..r.value.position] + ["</varDec>"]
  {
    var e1 := Write(e, "<varDec>");
    var e2 :- CopyUntil(e1, SEMICOLON_SYMBOL);
    // write_token cannot fail: the copy stopped on the ';'
    var e3 := WriteToken(e2).value;
    var k := e2.position;
    assert e.tokens[e.position..k + 1] == e.tokens[e.position..k] + [e.tokens[k]];
    Success(Write(e3, "</varDec>"))
  }

  /**
    `compile_class_var_dec`: `<classVarDec>`, the tokens before the first
    ';' (a leading `static` or `field` included), `</classVarDec>`. The ';'
    itself is neither written nor consumed.
   */
  function CompileClassVarDec(e: Engine): (r: Result<Engine, EngineError>)
    ensures r.Success? ==>
      && r.value.tokens == e.tokens
      && FirstFrom(e.tokens, e.position, r.value.position, SEMICOLON_SYMBOL)
      && r.value.output == e.output + ["<classVarDec>"] + e.tokens[e.position..r.value.position] + ["</classVarDec>"]
    ensures r.Failure? ==> r.error.Panicked?
    ensures e.position >= |e.tokens| ==> r.Failure?
    ensures e.position < |e.tokens| && e.tokens[e.position] in {STATIC, FIELD} ==>
      (r.Success? <==> OccursFrom(e.tokens, e.position + 1, SEMICOLON_SYMBOL))
    ensures e.position < |e.tokens| && e.tokens[e.position] !in {STATIC, FIELD} ==>
      (r.Success? <==> OccursFrom(e.tokens, e.position, SEMICOLON_SYMBOL))
  {
    var e1 := Write(e, "<classVarDec>");
    var first :- PeekUnwrap(e1);
    // write_token cannot fail here: peek has just found a token
    var e2 := if first == STATIC || first == FIELD then WriteToken(e1).value else e1;
    var e3 :- CopyUntil(e2, SEMICOLON_SYMBOL);
    assert e3.output == e.output + ["<classVarDec>"] + e.tokens[e.position..e3.position] by {
      if e2.position == e.position + 1 {
        assert e.tokens[e.position..e3.position] == [first] + e.tokens[e2.position..e3.position];
      }
    }
    Success(Write(e3, "</classVarDec>"))
  }

  /**
    `compile_parameter_list`: `<parameterList>`, the tokens before the first
    ')', `</parameterList>`; the ')' is left for the caller.
   */
  function CompileParameterList(e: Engine): (r: Result<Engine, EngineError>)
    ensures r.Success? <==> OccursFrom(e.tokens, e.position, CLOSE_PARENTHESIS)
    ensures r.Success? ==>
      && r.value.tokens == e.tokens
      && FirstFrom(e.tokens, e.position, r.value.position, CLOSE_PARENTHESIS)
      && r.value.output == e.output + ["<parameterList>"] + e.tokens[e.position..r.value.position] + ["</parameterList>"]
  {
    var e1 := Write(e, "<parameterList>");
    var e2 :- CopyUntil(e1, CLOSE_PARENTHESIS);
    Success(Write(e2, "</parameterList>"))
  }

  /**
    `compile_return`: exactly three tokens copied, whatever they are. With
    fewer left, the ones there are have been copied and consumed when the
    error comes back.
   */
  function CompileReturn(e: Engine): (r: Result<Engine, EngineError>)
    ensures r.Success? <==> e.position + 3 <= |e.tokens|
    ensures r.Failure? ==> r.error.UnexpectedEof?
    ensures r.Failure? && e.position >= |e.tokens| ==> r.error.state == e
    ensures r.Failure? && e.position < |e.tokens| ==>
      r.error.state == Engine(e.tokens, |e.tokens|, e.output + e.tokens[e.position..])
    ensures r.Success? ==>
      r.value == Engine(e.tokens, e.position + 3, e.output + e.tokens[e.position..e.position + 3])
  {
    var e1 :- WriteToken(e);
    var e2 :- WriteToken(e1);
    var e3 :- WriteToken(e2);
    assert e.tokens[e.position..e.position + 3] == [e.tokens[e.position], e.tokens[e.position + 1], e.tokens[e.position + 2]];
    Success(e3)
  }

  // ---------------------------------------------------------------------------
  // Properties

  /** Reading never loses a line: every production only appends to the output and moves forward. */
  lemma OnlyForward(e: Engine)
    ensures CompileVarDec(e).Success? ==>
      CompileVarDec(e).value.position > e.position && e.output <= CompileVarDec(e).value.output
    ensures CompileParameterList(e).Success? ==>
      CompileParameterList(e).value.position >= e.position && e.output <= CompileParameterList(e).value.output
    ensures CompileClassVarDec(e).Success? ==>
      CompileClassVarDec(e).value.position >= e.position && e.output <= CompileClassVarDec(e).value.output
  {
  }

  /**
    A declaration `decl` (ending in its only ';') after `front` is read
    whole, whatever follows it.
   */
  lemma DeclarationAt(front: seq<string>, decl: seq<string>, rest: seq<string>, out: seq<string>)
    requires |decl| > 0 && decl[|decl| - 1] == SEMICOLON_SYMBOL && SEMICOLON_SYMBOL !in decl[..|decl| - 1]
    ensures CompileVarDec(Engine(front + decl + rest, |front|, out))
      == Success(Engine(front + decl + rest, |front| + |decl|, out + ["<varDec>"] + decl + ["</varDec>"]))
  {
    var tokens := front + decl + rest;
    var from := |front|;
    var k := from + |decl| - 1;
    forall j | from <= j < k ensures tokens[j] != SEMICOLON_SYMBOL {
      assert tokens[j] == decl[..|decl| - 1][j - from];
    }
    VarDecAt(tokens, from, k, out);
    assert tokens[from..k + 1] == decl;
  }

  /** `compile_var_dec` from `from`, with the first ';' at `k`. */
  lemma VarDecAt(tokens: seq<string>, from: nat, k: nat, out: seq<string>)
    requires from <= k < |tokens| && tokens[k] == SEMICOLON_SYMBOL
    requires forall j | from <= j < k :: tokens[j] != SEMICOLON_SYMBOL
    ensures CompileVarDec(Engine(tokens, from, out))
      == Success(Engine(tokens, k + 1, out + ["<varDec>"] + tokens[from..k + 1] + ["</varDec>"]))
  {
    assert FirstFrom(tokens, from, k, SEMICOLON_SYMBOL);
    FirstUnique(tokens, from, k, SEMICOLON_SYMBOL);
  }

  /** The first occurrence is unique. */
  lemma FirstUnique(tokens: seq<string>, from: nat, k: nat, delim: string)
    requires FirstFrom(tokens, from, k, delim)
    ensures forall k2 :: FirstFrom(tokens, from, k2, delim) ==> k2 == k
  {
  }

  /** The unit test's case: `var int x ;` is copied between the varDec tags. */
  lemma VarDecExample()
    ensures var tokens := ["<keyword> var </keyword>", "<keyword> int </keyword>", "<identifier> x </identifier>", "<symbol> ; </symbol>"];
      CompileVarDec(NewEngine(tokens)).Success?
      && CompileVarDec(NewEngine(tokens)).value.output
        == ["<varDec>", "<keyword> var </keyword>", "<keyword> int </keyword>", "<identifier> x </identifier>", "<symbol> ; </symbol>", "</varDec>"]
  {
    var tokens := ["<keyword> var </keyword>", "<keyword> int </keyword>", "<identifier> x </identifier>", "<symbol> ; </symbol>"];
    VarDecAt(tokens, 0, 3, []);
    assert tokens[0..4] == tokens;
  }
}
