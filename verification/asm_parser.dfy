/**
  `parse_file` of `assembler/src/parser.rs`, without the file reading: each
  line loses its `//` comment and surrounding whitespace; blank lines are
  skipped, `@value` is an A-instruction, `(name)` a label, and any other
  line a C-instruction cut at the first '=' and then at the first ';'.

  The fields are not checked here: a second '=' or ';' and everything after
  it is dropped, and an unknown mnemonic only fails later, in the code
  tables.
 */
module AsmParser {
  import opened Wrappers
  import opened Text
  import opened Hack

  datatype Instruction =
    | AInstr(value: string)
    | CInstr(dest: Option<string>, comp: string, jump: Option<string>)
    | LabelInstr(name: string)

  /** `split('=')`: the dest field before the first '=', if any, and the second segment. */
  function SplitDest(l: string): (r: (Option<string>, string))
    ensures r.0.None? <==> '=' !in l
    ensures r.0.None? ==> r.1 == l
    ensures r.0.Some? ==> StartsWith(l, r.0.value + "=") && '=' !in r.0.value
    ensures '=' !in r.1
  {
    match AfterChar(l, '=')
    case Some(rest) =>
      var d := BeforeChar(l, '=');
      assert l[..|d| + 1] == d + "=";
      (Some(d), BeforeChar(rest, '='))
    case None => (None, l)
  }

  /** `split(';')`: the comp field before the first ';' and the jump field after it, if any. */
  function SplitJump(cj: string): (r: (string, Option<string>))
    ensures r.1.None? <==> ';' !in cj
    ensures r.1.None? ==> r.0 == cj
    ensures r.1.Some? ==> StartsWith(cj, r.0 + ";" + r.1.value)
    ensures ';' !in r.0 && (r.1.Some? ==> ';' !in r.1.value)
  {
    match AfterChar(cj, ';')
    case Some(rest) =>
      var c := BeforeChar(cj, ';');
      var j := BeforeChar(rest, ';');
      assert cj == c + ";" + rest;
      assert cj[..|c| + 1 + |j|] == c + ";" + j;
      (c, Some(j))
    case None => (cj, None)
  }

  /** The three fields of a C-instruction line. */
  function SplitC(l: string): (Option<string>, string, Option<string>) {
    var (dest, compJump) := SplitDest(l);
    var (comp, jump) := SplitJump(compJump);
    (dest, comp, jump)
  }

  /** One source line: `None` for a blank or comment-only line. */
  function ParseLine(line: string): Option<Instruction> {
    ParseClean(Clean(line))
  }

  /** A line already stripped of its comment and surrounding whitespace. */
  function ParseClean(l: string): (r: Option<Instruction>)
    ensures r.None? <==> l == ""
    ensures r.Some? && r.value.AInstr? ==> l == "@" + r.value.value
    ensures r.Some? && r.value.LabelInstr? ==> l == "(" + r.value.name + ")"
    ensures r.Some? && r.value.CInstr? ==> l[0] != '@' && !(l[0] == '(' && l[|l| - 1] == ')')
  {
    if |l| == 0 then None
    else if l[0] == '@' then
      assert l == "@" + l[1..];
      Some(AInstr(l[1..]))
    else if l[0] == '(' && l[|l| - 1] == ')' then
      assert l == "(" + l[1..|l| - 1] + ")";
      Some(LabelInstr(l[1..|l| - 1]))
    else
      var (dest, comp, jump) := SplitC(l);
      Some(CInstr(dest, comp, jump))
  }

  /** `parse_file` on the lines of a file: one instruction per non-blank line, in order. */
  function ParseLines(lines: seq<string>): (r: seq<Instruction>)
    ensures |r| <= |lines|
  {
    Collect(ParseLine, lines)
  }

  /** The instructions `parse` finds in `lines`, skipping the lines it reads as blank. */
  function Collect(parse: string -> Option<Instruction>, lines: seq<string>): (r: seq<Instruction>)
    ensures |r| <= |lines|
  {
    if |lines| == 0 then []
    else Kept(parse(lines[0])) + Collect(parse, lines[1..])
  }

  /** The instruction a line contributes: none for a blank line. */
  function Kept(parsed: Option<Instruction>): seq<Instruction> {
    match parsed
    case Some(i) => [i]
    case None => []
  }

  /** When no line is blank, the i-th instruction collected is the parse of the i-th line. */
  lemma {:induction false} CollectAll(parse: string -> Option<Instruction>, lines: seq<string>)
    requires forall j | 0 <= j < |lines| :: parse(lines[j]).Some?
    ensures |Collect(parse, lines)| == |lines|
    ensures forall j | 0 <= j < |lines| :: parse(lines[j]) == Some(Collect(parse, lines)[j])
  {
    if |lines| > 0 {
      var tail := lines[1..];
      assert forall j | 0 <= j < |tail| :: tail[j] == lines[j + 1];
      CollectAll(parse, tail);
      assert Collect(parse, lines) == [parse(lines[0]).value] + Collect(parse, tail);
      forall j | 1 <= j < |lines| ensures parse(lines[j]) == Some(Collect(parse, lines)[j]) {
        assert lines[j] == tail[j - 1];
      }
    }
  }

  /** Collecting from two runs of lines is collecting from each, one after the other. */
  lemma {:induction false} CollectAppend(parse: string -> Option<Instruction>, xs: seq<string>, ys: seq<string>)
    ensures Collect(parse, xs + ys) == Collect(parse, xs) + Collect(parse, ys)
  {
    if |xs| > 0 {
      assert (xs + ys)[1..] == xs[1..] + ys;
      CollectAppend(parse, xs[1..], ys);
      assert (xs + ys)[0] == xs[0];
    } else {
      assert xs + ys == ys;
    }
  }

  /** Without blank lines, the i-th instruction is the parse of the i-th line. */
  lemma ParseLinesNoBlanks(lines: seq<string>)
    requires forall j | 0 <= j < |lines| :: Clean(lines[j]) != ""
    ensures |ParseLines(lines)| == |lines|
    ensures forall j | 0 <= j < |lines| :: ParseLine(lines[j]) == Some(ParseLines(lines)[j])
  {
    forall j | 0 <= j < |lines| ensures ParseLine(lines[j]).Some? {
      assert Clean(lines[j]) != "";
    }
    CollectAll(ParseLine, lines);
  }

  /** Parsing a file is parsing its halves one after the other. */
  lemma ParseLinesAppend(xs: seq<string>, ys: seq<string>)
    ensures ParseLines(xs + ys) == ParseLines(xs) + ParseLines(ys)
  {
    CollectAppend(ParseLine, xs, ys);
  }

  // ---------------------------------------------------------------------------
  // Printing, the partner of parsing

  /** Characters of a symbol: letters, digits and `_ . $ :`. */
  predicate IsSymbolChar(c: char) {
    ('a' <= c <= 'z') || ('A' <= c <= 'Z') || ('0' <= c <= '9') || c == '_' || c == '.' || c == '$' || c == ':'
  }

  /** Characters of a mnemonic: letters, digits and `+ - ! & |`. */
  predicate IsMnemonicChar(c: char) {
    ('a' <= c <= 'z') || ('A' <= c <= 'Z') || ('0' <= c <= '9') || c == '+' || c == '-' || c == '!' || c == '&' || c == '|'
  }

  predicate SymbolText(s: string) {
    forall i | 0 <= i < |s| :: IsSymbolChar(s[i])
  }

  predicate MnemonicText(s: string) {
    forall i | 0 <= i < |s| :: IsMnemonicChar(s[i])
  }

  /** Instructions that can be written on a line and read back. */
  predicate Printable(ins: Instruction) {
    match ins
    case AInstr(v) => SymbolText(v)
    case LabelInstr(n) => SymbolText(n)
    case CInstr(dest, comp, jump) =>
      && (dest.Some? ==> MnemonicText(dest.value))
      && |comp| > 0 && MnemonicText(comp)
      && (jump.Some? ==> MnemonicText(jump.value))
  }

  /** The assembly line of an instruction: `@v`, `(name)` or `dest=comp;jump`. */
  function Print(ins: Instruction): string {
    match ins
    case AInstr(v) => "@" + v
    case LabelInstr(n) => "(" + n + ")"
    case CInstr(dest, comp, jump) => DestPrefix(dest) + (comp + JumpSuffix(jump))
  }

  /** `dest=` before the computation, or nothing. */
  function DestPrefix(dest: Option<string>): string {
    match dest case Some(d) => d + "=" case None => ""
  }

  /** `;jump` after the computation, or nothing. */
  function JumpSuffix(jump: Option<string>): string {
    match jump case Some(j) => ";" + j case None => ""
  }

  /** Characters a printed line is made of. */
  predicate IsLineChar(c: char) {
    IsSymbolChar(c) || IsMnemonicChar(c) || c == '@' || c == '(' || c == ')' || c == '=' || c == ';'
  }

  predicate LineText(s: string) {
    forall i | 0 <= i < |s| :: IsLineChar(s[i])
  }

  lemma LineTextConcat(a: string, b: string)
    requires LineText(a) && LineText(b)
    ensures LineText(a + b)
  {
    forall i | 0 <= i < |a + b| ensures IsLineChar((a + b)[i]) {
      if i < |a| { assert (a + b)[i] == a[i]; } else { assert (a + b)[i] == b[i - |a|]; }
    }
  }

  lemma PrintChars(ins: Instruction)
    requires Printable(ins)
    ensures LineText(Print(ins))
  {
    match ins
    case AInstr(v) =>
      LineTextConcat("@", v);
    case LabelInstr(n) =>
      LineTextConcat("(", n);
      LineTextConcat("(" + n, ")");
    case CInstr(dest, comp, jump) =>
      var head := DestPrefix(dest);
      var tail := JumpSuffix(jump);
      if dest.Some? { LineTextConcat(dest.value, "="); }
      if jump.Some? { LineTextConcat(";", jump.value); }
      LineTextConcat(comp, tail);
      LineTextConcat(head, comp + tail);
  }

  /** A line of such characters has no comment and no surrounding whitespace to remove. */
  lemma CleanLine(l: string)
    requires LineText(l)
    ensures Clean(l) == l
  {
    assert '/' !in l by {
      forall i | 0 <= i < |l| ensures l[i] != '/' { assert IsLineChar(l[i]); }
    }
    CutCommentNoSlash(l);
    if |l| > 0 {
      assert IsLineChar(l[0]) && IsLineChar(l[|l| - 1]);
    }
    TrimNoop(l);
  }

  lemma CleanPrinted(ins: Instruction)
    requires Printable(ins)
    ensures Clean(Print(ins)) == Print(ins)
  {
    PrintChars(ins);
    CleanLine(Print(ins));
  }

  /** Every printable instruction parses back from its line. */
  lemma ParsePrint(ins: Instruction)
    requires Printable(ins)
    ensures ParseLine(Print(ins)) == Some(ins)
  {
    CleanPrinted(ins);
    match ins
    case AInstr(v) => ParsePrintA(v);
    case LabelInstr(n) => ParsePrintLabel(n);
    case CInstr(dest, comp, jump) => ParsePrintC(dest, comp, jump);
  }

  lemma ParsePrintA(v: string)
    ensures ParseClean(Print(AInstr(v))) == Some(AInstr(v))
  {
    assert Print(AInstr(v))[1..] == v;
  }

  lemma ParsePrintLabel(n: string)
    ensures ParseClean(Print(LabelInstr(n))) == Some(LabelInstr(n))
  {
    var l := Print(LabelInstr(n));
    assert l[1..|l| - 1] == n;
  }

  lemma ParsePrintC(dest: Option<string>, comp: string, jump: Option<string>)
    requires Printable(CInstr(dest, comp, jump))
    ensures ParseClean(Print(CInstr(dest, comp, jump))) == Some(CInstr(dest, comp, jump))
  {
    var l := Print(CInstr(dest, comp, jump));
    assert l[0] != '@' && l[0] != '(' by {
      if dest.Some? && |dest.value| > 0 {
        assert l[0] == dest.value[0] && IsMnemonicChar(dest.value[0]);
      } else if dest.Some? {
        assert l[0] == '=';
      } else {
        assert l[0] == comp[0] && IsMnemonicChar(comp[0]);
      }
    }
    SplitPrinted(dest, comp, jump);
  }

  /** The fields of a printed C-instruction are cut back out of its line. */
  lemma SplitPrinted(dest: Option<string>, comp: string, jump: Option<string>)
    requires Printable(CInstr(dest, comp, jump))
    ensures SplitC(Print(CInstr(dest, comp, jump))) == (dest, comp, jump)
  {
    var tail := comp + JumpSuffix(jump);
    SplitTail(comp, jump, tail);
    if dest.Some? {
      NoSeparators(dest.value);
    }
    SplitFields(dest, tail);
  }

  lemma SplitFields(dest: Option<string>, tail: string)
    requires dest.Some? ==> '=' !in dest.value
    requires '=' !in tail
    ensures SplitDest(DestPrefix(dest) + tail) == (dest, tail)
  {
    if dest.Some? {
      DestOfPrinted(dest.value, tail, DestPrefix(dest) + tail);
    } else {
      assert DestPrefix(dest) + tail == tail;
      SplitNone(tail, '=');
    }
  }

  lemma DestOfPrinted(d: string, tail: string, l: string)
    requires '=' !in d && '=' !in tail && l == d + "=" + tail
    ensures SplitDest(l) == (Some(d), tail)
  {
    assert l == d + ['='] + tail;
    SplitAt(d, '=', tail);
    SplitNone(tail, '=');
  }

  /** Mnemonics hold neither '=' nor ';'. */
  lemma NoSeparators(s: string)
    requires MnemonicText(s)
    ensures '=' !in s && ';' !in s
  {
    forall i | 0 <= i < |s| ensures s[i] != '=' && s[i] != ';' { assert IsMnemonicChar(s[i]); }
  }

  /** Cutting `comp;jump` (or `comp` alone) at ';' gives its two fields; there is no '='. */
  lemma SplitTail(comp: string, jump: Option<string>, tail: string)
    requires MnemonicText(comp) && (jump.Some? ==> MnemonicText(jump.value))
    requires tail == comp + JumpSuffix(jump)
    ensures '=' !in tail
    ensures SplitJump(tail) == (comp, jump)
  {
    NoSeparators(comp);
    match jump {
      case Some(j) =>
        NoSeparators(j);
        assert tail == comp + [';'] + j;
        SplitAt(comp, ';', j);
        SplitNone(j, ';');
      case None =>
        assert tail == comp;
        SplitNone(comp, ';');
    }
  }

  /**
    Everything after a second ';' or a second '=' is silently dropped:
    `d=c;j;x` reads as `d=c;j`, and `d=c=x` as `d=c`.
   */
  lemma ExtraFieldsDropped(d: string, comp: string, j: string, extra: string)
    requires '=' !in d && '=' !in comp && ';' !in comp && '=' !in j && ';' !in j
    ensures '=' !in extra ==> SplitC(d + "=" + comp + ";" + j + ";" + extra) == (Some(d), comp, Some(j))
    ensures SplitC(d + "=" + comp + "=" + extra) == (Some(d), comp, None)
  {
    if '=' !in extra {
      var rest := j + ";" + extra;
      var tail := comp + ";" + rest;
      assert d + "=" + comp + ";" + j + ";" + extra == d + ['='] + tail;
      SplitAt(d, '=', tail);
      assert '=' !in tail by {
        assert tail == comp + [';'] + j + [';'] + extra;
      }
      SplitNone(tail, '=');
      assert tail == comp + [';'] + rest;
      SplitAt(comp, ';', rest);
      assert rest == j + [';'] + extra;
      SplitAt(j, ';', extra);
    }
    var tail := comp + "=" + extra;
    assert d + "=" + comp + "=" + extra == d + ['='] + tail;
    SplitAt(d, '=', tail);
    assert tail == comp + ['='] + extra;
    SplitAt(comp, '=', extra);
    SplitNone(comp, ';');
  }

  // ---------------------------------------------------------------------------
  // Instructions of the Hack language

  /** The text of a Hack C-instruction, as the parser reads it. */
  function HackC(dst: Dest, c: Comp, j: Jump): Instruction {
    CInstr(DestText(dst), CompText(c), JumpText(j))
  }

  /** Every Hack C-instruction can be written on a line and read back. */
  lemma HackPrintable(dst: Dest, c: Comp, j: Jump)
    ensures Printable(HackC(dst, c, j))
    ensures ParseLine(Print(HackC(dst, c, j))) == Some(HackC(dst, c, j))
  {
    CompMnemonic(c);
    ParsePrint(HackC(dst, c, j));
  }

  lemma CompMnemonic(c: Comp)
    ensures |CompText(c)| > 0 && MnemonicText(CompText(c))
  {
  }
}
