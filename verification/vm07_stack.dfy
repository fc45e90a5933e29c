/**
  `Stack` of `project07-virtual-machine/src/stack.rs`: a vector of `i16`
  with a stack pointer that every operation resets to the vector's length.
  `push` inserts at the stack pointer (panicking when it is past the end),
  `pop` removes the last element, and the arithmetic unwraps two (or one)
  pops and pushes the result, panicking on an empty stack or an `i16`
  overflow.
 */
module Vm07Stack {
  import opened Wrappers
  import opened RustInts

  datatype Stack = Stack(memory: seq<I16>, sp: nat)

  /** The invariant every operation restores: the pointer is the length. */
  predicate Valid(s: Stack) {
    s.sp == |s.memory|
  }

  /** `Stack::new` */
  function NewStack(): (r: Stack)
    ensures Valid(r) && r.memory == []
  {
    Stack([], 0)
  }

  /** `push`: `insert(sp, value)`, then `sp = len`. */
  function Push(s: Stack, value: I16): (r: Result<Stack, Panic>)
    ensures r.Success? <==> s.sp <= |s.memory|
    ensures r.Success? ==> Valid(r.value) && |r.value.memory| == |s.memory| + 1
    ensures r.Success? ==> r.value.memory[s.sp] == value
    ensures r.Success? ==> r.value.memory[..s.sp] == s.memory[..s.sp] && r.value.memory[s.sp + 1..] == s.memory[s.sp..]
  {
    if s.sp <= |s.memory| then
      var memory := s.memory[..s.sp] + [value] + s.memory[s.sp..];
      assert memory[..s.sp] == s.memory[..s.sp] && memory[s.sp + 1..] == s.memory[s.sp..];
      Success(Stack(memory, |memory|))
    else Failure(OutOfBounds("insertion index"))
  }

  /** `pop`: the last element, if any; the pointer becomes the new length. */
  function Pop(s: Stack): (r: (Stack, Option<I16>))
    ensures Valid(r.0)
    ensures r.1.None? <==> s.memory == []
    ensures r.1.Some? ==> s.memory == r.0.memory + [r.1.value]
    ensures r.1.None? ==> r.0 == NewStack()
  {
    if |s.memory| == 0 then (Stack([], 0), None)
    else
      var n := |s.memory| - 1;
      (Stack(s.memory[..n], n), Some(s.memory[n]))
  }

  /** `pop().unwrap()` */
  function PopUnwrap(s: Stack): (r: Result<(Stack, I16), Panic>)
    ensures r.Success? <==> s.memory != []
    ensures r.Success? ==> Pop(s) == (r.value.0, Some(r.value.1))
  {
    match Pop(s)
    case (t, Some(v)) => Success((t, v))
    case (_, None) => Failure(Unwrap("pop"))
  }

  /** The two operators `add` and `sub` apply. */
  datatype Operator = Plus | Minus

  function Apply(op: Operator, x: I16, y: I16): int {
    match op
    case Plus => x + y
    case Minus => x - y
  }

  /** `add` and `sub`: y from the top, x below it, then `push(x op y)`. */
  function Binary(s: Stack, op: Operator): Result<Stack, Panic> {
    var (s1, y) :- PopUnwrap(s);
    var (s2, x) :- PopUnwrap(s1);
    var result :- CheckedI16(Apply(op, x, y), if op == Plus then "x + y" else "x - y");
    Push(s2, result)
  }

  function Add(s: Stack): Result<Stack, Panic> { Binary(s, Plus) }
  function Sub(s: Stack): Result<Stack, Panic> { Binary(s, Minus) }

  /** `neg`: `push(-x)` for the top x. */
  function Neg(s: Stack): (r: Result<Stack, Panic>)
    ensures r.Success? <==> s.memory != [] && s.memory[|s.memory| - 1] != -32768
    ensures r.Success? ==> var n := |s.memory| - 1;
      Valid(r.value) && r.value.memory == s.memory[..n] + [-s.memory[n]]
  {
    var (s1, x) :- PopUnwrap(s);
    var result :- CheckedI16(0 - x, "-x");
    Push(s1, result)
  }

  /** On a valid stack, push appends, whatever was there. */
  lemma PushAppends(s: Stack, value: I16)
    requires Valid(s)
    ensures Push(s, value) == Success(Stack(s.memory + [value], |s.memory| + 1))
  {
    assert s.memory[..s.sp] == s.memory && s.memory[s.sp..] == [];
    assert s.memory[..s.sp] + [value] + s.memory[s.sp..] == s.memory + [value];
  }

  /** Pushing and popping gives back the value and the stack. */
  lemma PushPop(s: Stack, value: I16)
    requires Valid(s)
    ensures Pop(Push(s, value).value) == (s, Some(value))
  {
    PushAppends(s, value);
    assert (s.memory + [value])[..|s.memory|] == s.memory;
  }

  /**
    On a stack `rest + [x, y]`, add and sub replace the two top values by
    x + y or x - y, and panic exactly when that leaves the `i16` range. With
    fewer than two values they panic too.
   */
  lemma BinaryMeaning(rest: seq<I16>, x: I16, y: I16, op: Operator, sp: nat)
    ensures Binary(Stack(rest + [x, y], sp), op).Success? <==> -32768 <= Apply(op, x, y) < 32768
    ensures Binary(Stack(rest + [x, y], sp), op).Success? ==>
      Binary(Stack(rest + [x, y], sp), op).value == Stack(rest + [Apply(op, x, y)], |rest| + 1)
  {
    PopTwo(rest, x, y, sp);
    if -32768 <= Apply(op, x, y) < 32768 {
      PushAppends(Stack(rest, |rest|), Apply(op, x, y));
    }
  }

  /** The two pops of add and sub on `rest + [x, y]`. */
  lemma PopTwo(rest: seq<I16>, x: I16, y: I16, sp: nat)
    ensures PopUnwrap(Stack(rest + [x, y], sp)) == Success((Stack(rest + [x], |rest| + 1), y))
    ensures PopUnwrap(Stack(rest + [x], |rest| + 1)) == Success((Stack(rest, |rest|), x))
  {
    var m := rest + [x, y];
    assert m[..|m| - 1] == rest + [x] && m[|m| - 1] == y;
    assert (rest + [x])[..|rest|] == rest && (rest + [x])[|rest|] == x;
  }

  /** An empty stack or a single value cannot be added or subtracted. */
  lemma BinaryNeedsTwo(s: Stack, op: Operator)
    requires |s.memory| < 2
    ensures Binary(s, op).Failure?
  {
  }

  /** Every operation that succeeds leaves the pointer at the length. */
  lemma OperationsKeepValid(s: Stack, op: Operator)
    ensures Binary(s, op).Success? ==> Valid(Binary(s, op).value)
    ensures Neg(s).Success? ==> Valid(Neg(s).value)
  {
  }

  /** The worked example: pushing 16 and 2 and adding leaves `[18]` with the pointer at 1. */
  lemma AddExample()
    ensures var s1 := Push(NewStack(), 16).value; var s2 := Push(s1, 2).value;
      Add(s2) == Success(Stack([18], 1))
  {
    var s1 := Push(NewStack(), 16).value;
    assert s1 == Stack([16], 1);
    var s2 := Push(s1, 2).value;
    assert s2 == Stack([16, 2], 2);
    BinaryMeaning([], 16, 2, Plus, 2);
  }
}
