/**
  `Stack` of `project07/src/stack.rs`: a vector of `i16` and a `u16`
  counter. `push` and `pop` move the counter with the vector (with `u16`
  overflow panics: `pop` on a zero counter panics before it looks at the
  vector), but `add`, `sub` and `neg` work on the vector alone, so after an
  `add` the counter is one more than the number of values.
 */
module P07Stack {
  import opened Wrappers
  import opened RustInts

  const U16_LIMIT: nat := 65536

  datatype Stack = Stack(data: seq<I16>, sp: nat)

  predicate InRange(s: Stack) {
    s.sp < U16_LIMIT
  }

  /** `Stack::new` */
  function NewStack(): (r: Stack)
    ensures r.data == [] && r.sp == 0
  {
    Stack([], 0)
  }

  /** `push`: append, then `sp += 1`, which panics at 65535. */
  function Push(s: Stack, value: I16): (r: Result<Stack, Panic>)
    requires InRange(s)
    ensures r.Success? <==> s.sp + 1 < U16_LIMIT
    ensures r.Success? ==> InRange(r.value) && r.value.data == s.data + [value] && r.value.sp == s.sp + 1
  {
    if s.sp + 1 < U16_LIMIT then Success(Stack(s.data + [value], s.sp + 1))
    else Failure(Overflow("sp += 1"))
  }

  /** `pop`: `sp -= 1`, which panics at 0, then the last value if there is one. */
  function Pop(s: Stack): (r: Result<(Stack, Option<I16>), Panic>)
    requires InRange(s)
    ensures r.Success? <==> s.sp > 0
    ensures r.Success? ==> r.value.0.sp == s.sp - 1
    ensures r.Success? ==> (r.value.1.None? <==> s.data == [])
    ensures r.Success? && r.value.1.Some? ==> s.data == r.value.0.data + [r.value.1.value]
    ensures r.Success? && r.value.1.None? ==> r.value.0.data == []
  {
    if s.sp == 0 then Failure(Overflow("sp -= 1"))
    else if |s.data| == 0 then Success((Stack([], s.sp - 1), None))
    else
      var n := |s.data| - 1;
      Success((Stack(s.data[..n], s.sp - 1), Some(s.data[n])))
  }

  /** `data.pop().unwrap()`: the counter is not touched. */
  function PopData(data: seq<I16>): (r: Result<(seq<I16>, I16), Panic>)
    ensures r.Success? <==> data != []
    ensures r.Success? ==> data == r.value.0 + [r.value.1]
  {
    if |data| == 0 then Failure(Unwrap("data.pop()"))
    else Success((data[..|data| - 1], data[|data| - 1]))
  }

  datatype Operator = Plus | Minus

  function Apply(op: Operator, x: I16, y: I16): int {
    match op
    case Plus => x + y
    case Minus => x - y
  }

  /** `add` and `sub` on the vector alone. */
  function Binary(s: Stack, op: Operator): (r: Result<Stack, Panic>)
    ensures r.Success? ==> r.value.sp == s.sp && |r.value.data| + 1 == |s.data|
  {
    var (d1, y) :- PopData(s.data);
    var (d2, x) :- PopData(d1);
    var result :- CheckedI16(Apply(op, x, y), if op == Plus then "x + y" else "x - y");
    Success(Stack(d2 + [result], s.sp))
  }

  function Add(s: Stack): Result<Stack, Panic> { Binary(s, Plus) }
  function Sub(s: Stack): Result<Stack, Panic> { Binary(s, Minus) }

  /** `neg` on the vector alone. */
  function Neg(s: Stack): (r: Result<Stack, Panic>)
    ensures r.Success? <==> s.data != [] && s.data[|s.data| - 1] != -32768
    ensures r.Success? ==> var n := |s.data| - 1;
      r.value == Stack(s.data[..n] + [-s.data[n]], s.sp)
  {
    var (d1, y) :- PopData(s.data);
    var result :- CheckedI16(0 - y, "-y");
    Success(Stack(d1 + [result], s.sp))
  }

  /** add and sub replace the two top values by x + y or x - y, panicking when that overflows. */
  lemma BinaryMeaning(rest: seq<I16>, x: I16, y: I16, op: Operator, sp: nat)
    ensures Binary(Stack(rest + [x, y], sp), op).Success? <==> -32768 <= Apply(op, x, y) < 32768
    ensures Binary(Stack(rest + [x, y], sp), op).Success? ==>
      Binary(Stack(rest + [x, y], sp), op).value == Stack(rest + [Apply(op, x, y)], sp)
  {
    var m := rest + [x, y];
    assert m[..|m| - 1] == rest + [x] && m[|m| - 1] == y;
    assert (rest + [x])[..|rest|] == rest && (rest + [x])[|rest|] == x;
  }

  /** Pushing and popping gives back the value and the stack. */
  lemma PushPop(s: Stack, value: I16)
    requires InRange(s) && s.sp + 1 < U16_LIMIT
    ensures Pop(Push(s, value).value) == Success((s, Some(value)))
  {
    assert (s.data + [value])[..|s.data|] == s.data;
  }

  /**
    The counter and the vector drift apart: after pushing x and y and
    adding, one value is left but the counter says two, and a later pop
    still succeeds once the vector is empty.
   */
  lemma AddDesynchronises(x: I16, y: I16)
    requires -32768 <= x + y < 32768
    ensures var s1 := Push(NewStack(), x).value; var s2 := Push(s1, y).value;
      && Add(s2) == Success(Stack([x + y], 2))
      && Pop(Add(s2).value).Success?
      && Pop(Add(s2).value).value.0 == Stack([], 1)
      && Pop(Pop(Add(s2).value).value.0) == Success((Stack([], 0), None))
  {
    var s2 := Push(Push(NewStack(), x).value, y).value;
    assert s2 == Stack([] + [x, y], 2);
    BinaryMeaning([], x, y, Plus, 2);
    var s3 := Add(s2).value;
    assert s3 == Stack([x + y], 2);
    assert [x + y][..0] == [];
    assert Pop(s3).value.0 == Stack([], 1);
  }
}
