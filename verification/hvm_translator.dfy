/**
  The dispatch loop of `translate` in `hvm/src/translator.rs`: the
  bootstrap first, then one fragment per VM command in order, with
  `NewFile` only switching the file name that static variables are
  qualified with. The first writer that fails stops the translation.

  The random numbers the writers draw become data: `boot` for the
  bootstrap's call and `pick(k)` for the command at position `k`.
 */
module HvmTranslator {
  import opened Wrappers
  import opened Hack
  import opened HvmAsm
  import opened RustInts
  import opened HvmCommands
  import opened HvmArith
  import opened HvmSegments
  import opened HvmFlow
  import opened HvmCall

  /** The random numbers one command may consume. */
  datatype Randoms = Randoms(count1: Draw, count2: Draw, ret: U8)

  /** The label a flow command of function `owner` refers to: `owner$name`. */
  function FlowLabel(owner: string, name: string): string {
    owner + "$" + name
  }

  /** The fragment of one command, in the file `file`. */
  function Emit(command: VmCommand, file: string, r: Randoms): (res: Result<seq<Instr>, Panic>)
    ensures res.Failure? <==>
      || (command.Arithmetic? && command.command !in HvmParser.ARITHMETIC_COMMANDS)
      || ((command.Push? || command.Pop?) && WritePushPop(command, file).Failure?)
    ensures command.NewFile? ==> res == Success([])
  {
    match command
    case NewFile(_) => Success([])
    case Arithmetic(c) => WriteArithmetic(c, r.count1, r.count2)
    case Push(_, _) => WritePushPop(command, file)
    case Pop(_, _) => WritePushPop(command, file)
    case Call(callee, nargs) => Success(WriteCall(callee, nargs, r.ret))
    case Function(name, nvars) => Success(WriteFunction(name, nvars))
    case Goto(owner, name) => Success(WriteGoto(FlowLabel(owner, name)))
    case If(owner, name) => Success(WriteIf(FlowLabel(owner, name)))
    case Label(owner, name) => Success(WriteLabel(FlowLabel(owner, name)))
    case Return => Success(WRITE_RETURN)
  }

  /** The file name in force after `commands`, starting from `file`. */
  function CurrentFile(commands: seq<VmCommand>, file: string): string {
    if |commands| == 0 then file
    else CurrentFile(commands[1..], if commands[0].NewFile? then commands[0].file else file)
  }

  /** The loop body over `commands`, the first of which is at position `k`. */
  function TranslateFrom(commands: seq<VmCommand>, k: nat, file: string, pick: nat -> Randoms): Result<seq<Instr>, Panic> {
    if |commands| == 0 then Success([])
    else
      var code :- Emit(commands[0], file, pick(k));
      var next := if commands[0].NewFile? then commands[0].file else file;
      var rest :- TranslateFrom(commands[1..], k + 1, next, pick);
      Success(code + rest)
  }

  /** `translate`: the bootstrap, then the commands, starting with no file name. */
  function Translate(commands: seq<VmCommand>, boot: U8, pick: nat -> Randoms): Result<seq<Instr>, Panic> {
    var code :- TranslateFrom(commands, 0, "", pick);
    Success(WriteBootstrap(boot) + code)
  }

  /** Translating `a + b` is translating `a`, then `b` in the file `a` ended in. */
  lemma {:induction false} TranslateAppend(a: seq<VmCommand>, b: seq<VmCommand>, k: nat, file: string, pick: nat -> Randoms)
    ensures TranslateFrom(a + b, k, file, pick)
      == match TranslateFrom(a, k, file, pick)
         case Failure(e) => Failure(e)
         case Success(x) =>
           match TranslateFrom(b, k + |a|, CurrentFile(a, file), pick)
           case Failure(e) => Failure(e)
           case Success(y) => Success(x + y)
  {
    if |a| == 0 {
      assert a + b == b;
      match TranslateFrom(b, k, file, pick)
      case Failure(_) =>
      case Success(y) => assert [] + y == y;
    } else {
      assert (a + b)[0] == a[0] && (a + b)[1..] == a[1..] + b;
      var next := if a[0].NewFile? then a[0].file else file;
      TranslateAppend(a[1..], b, k + 1, next, pick);
      assert CurrentFile(a, file) == CurrentFile(a[1..], next);
      assert k + |a| == k + 1 + |a[1..]|;
      match Emit(a[0], file, pick(k))
      case Failure(_) =>
      case Success(code) =>
        match TranslateFrom(a[1..], k + 1, next, pick)
        case Failure(_) =>
        case Success(x) =>
          match TranslateFrom(b, k + |a|, CurrentFile(a, file), pick)
          case Failure(_) =>
          case Success(y) =>
            assert code + (x + y) == (code + x) + y;
    }
  }

  /** The file name in force at the command at index `i`. */
  function FileAt(commands: seq<VmCommand>, i: nat, file: string): string
    requires i <= |commands|
  {
    CurrentFile(commands[..i], file)
  }

  /** Every command's writer succeeds, each in the file in force where the command stands. */
  predicate AllEmit(commands: seq<VmCommand>, k: nat, file: string, pick: nat -> Randoms) {
    forall i | 0 <= i < |commands| :: Emit(commands[i], FileAt(commands, i, file), pick(k + i)).Success?
  }

  /** The translation fails exactly when one command's writer fails. */
  lemma {:induction false} TranslateSucceeds(commands: seq<VmCommand>, k: nat, file: string, pick: nat -> Randoms)
    ensures TranslateFrom(commands, k, file, pick).Success? <==> AllEmit(commands, k, file, pick)
  {
    if |commands| > 0 {
      var next := if commands[0].NewFile? then commands[0].file else file;
      TranslateSucceeds(commands[1..], k + 1, next, pick);
      AllEmitStep(commands, k, file, pick);
    }
  }

  /** Every writer succeeds exactly when the first does and every later one does, in the file after the first. */
  lemma AllEmitStep(commands: seq<VmCommand>, k: nat, file: string, pick: nat -> Randoms)
    requires |commands| > 0
    ensures var next := if commands[0].NewFile? then commands[0].file else file;
      var first := Emit(commands[0], file, pick(k)).Success?;
      AllEmit(commands, k, file, pick) <==> first && AllEmit(commands[1..], k + 1, next, pick)
  {
    var next := if commands[0].NewFile? then commands[0].file else file;
    FilesAfterFirst(commands, file);
    if AllEmit(commands, k, file, pick) {
      AllEmitTail(commands, k, file, pick);
    }
    if Emit(commands[0], file, pick(k)).Success? && AllEmit(commands[1..], k + 1, next, pick) {
      AllEmitCons(commands, k, file, pick);
    }
  }

  /** Past the first command, file names are those of the tail started in the file after the first. */
  lemma FilesAfterFirst(commands: seq<VmCommand>, file: string)
    requires |commands| > 0
    ensures FileAt(commands, 0, file) == file
    ensures var next := if commands[0].NewFile? then commands[0].file else file;
      forall i | 0 <= i < |commands| - 1 :: FileAt(commands[1..], i, next) == FileAt(commands, i + 1, file)
  {
    assert commands[..0] == [];
    var next := if commands[0].NewFile? then commands[0].file else file;
    forall i | 0 <= i < |commands| - 1 ensures FileAt(commands[1..], i, next) == FileAt(commands, i + 1, file) {
      assert commands[..i + 1][1..] == commands[1..][..i];
      assert commands[..i + 1][0] == commands[0];
    }
  }

  lemma AllEmitTail(commands: seq<VmCommand>, k: nat, file: string, pick: nat -> Randoms)
    requires |commands| > 0 && AllEmit(commands, k, file, pick)
    ensures Emit(commands[0], file, pick(k)).Success?
    ensures AllEmit(commands[1..], k + 1, if commands[0].NewFile? then commands[0].file else file, pick)
  {
    var next := if commands[0].NewFile? then commands[0].file else file;
    var tail := commands[1..];
    FilesAfterFirst(commands, file);
    assert Emit(commands[0], FileAt(commands, 0, file), pick(k + 0)).Success?;
    forall i | 0 <= i < |tail| ensures Emit(tail[i], FileAt(tail, i, next), pick(k + 1 + i)).Success? {
      assert tail[i] == commands[i + 1];
      assert Emit(commands[i + 1], FileAt(commands, i + 1, file), pick(k + (i + 1))).Success?;
    }
  }

  lemma AllEmitCons(commands: seq<VmCommand>, k: nat, file: string, pick: nat -> Randoms)
    requires |commands| > 0 && Emit(commands[0], file, pick(k)).Success?
    requires AllEmit(commands[1..], k + 1, if commands[0].NewFile? then commands[0].file else file, pick)
    ensures AllEmit(commands, k, file, pick)
  {
    var next := if commands[0].NewFile? then commands[0].file else file;
    var tail := commands[1..];
    FilesAfterFirst(commands, file);
    forall i | 0 <= i < |commands| ensures Emit(commands[i], FileAt(commands, i, file), pick(k + i)).Success? {
      if i > 0 {
        assert commands[i] == tail[i - 1];
        assert Emit(tail[i - 1], FileAt(tail, i - 1, next), pick(k + 1 + (i - 1))).Success?;
      }
    }
  }

  /** A `NewFile` command emits nothing and switches the file name. */
  lemma NewFileEmpty(f: string, rest: seq<VmCommand>, k: nat, file: string, pick: nat -> Randoms)
    ensures TranslateFrom([NewFile(f)] + rest, k, file, pick) == TranslateFrom(rest, k + 1, f, pick)
  {
    assert ([NewFile(f)] + rest)[1..] == rest;
    match TranslateFrom(rest, k + 1, f, pick)
    case Failure(_) =>
    case Success(y) => assert [] + y == y;
  }

  /** Any successful translation starts with the bootstrap. */
  lemma BootstrapFirst(commands: seq<VmCommand>, boot: U8, pick: nat -> Randoms)
    requires Translate(commands, boot, pick).Success?
    ensures WriteBootstrap(boot) <= Translate(commands, boot, pick).value
  {
  }

  /**
    Whatever the VM commands, the translated program first sets SP to 256
    and calls Sys.init: control reaches Sys.init with SP and LCL at 261 and
    ARG at 256.
   */
  lemma TranslateStartsSysInit(commands: seq<VmCommand>, boot: U8, pick: nat -> Randoms, s: State, sym: Symbols)
    requires StdSymbols(sym) && Translate(commands, boot, pick).Success?
    ensures var r := Exec(Translate(commands, boot, pick).value, s, sym);
      && r.Jumped? && r.target == sym("Sys.init")
      && Sp(r.s) == 261 && Mem(r.s, LCL) == 261 && Mem(r.s, ARG) == 256
  {
    var code := TranslateFrom(commands, 0, "", pick).value;
    var r := Exec(WriteBootstrap(boot), s, sym);
    BootstrapEffect(boot, s, sym);
    ExecJumpOut(WriteBootstrap(boot), code, s, r.target, r.s, sym);
  }
}
