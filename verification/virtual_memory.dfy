/**
  `VirtualRAM` of `project07-virtual-machine/src/virtual_memory.rs`: a VM
  interpreter over 32768 `i16` cells with the standard register layout.

  The code disagrees with the VM language in several places, and the model
  follows the code:
  - `local` and `argument` resolve to the register's own address (1 and 2),
    whatever the index, and `constant` resolves to SP, so `push constant i`
    copies RAM[SP] onto itself and ignores `i`;
  - `this` and `that` are not segments it knows;
  - `pop` moves RAM[SP] (the cell above the top) and leaves SP alone;
  - the binary operations take y from RAM[SP], zero that cell, decrement SP
    and combine with x = RAM[SP];
  - eq, gt and lt overwrite the flag they set with 0, so they always
    leave 0.
 */
module VirtualMemory {
  import opened Wrappers
  import opened RustInts

  const MEMORY_SIZE: nat := 32 * 1024

  datatype VirtualRam = VirtualRam(
    memory: seq<I16>, sp: nat,
    lcl: nat, arg: nat, thisPointer: nat, thatPointer: nat,
    tempStart: nat, tempEnd: nat, r13: nat, r14: nat, r15: nat,
    staticStart: nat, staticEnd: nat, stackStart: nat, stackEnd: nat)

  /** `VirtualRAM::new` */
  function NewVirtualRam(): VirtualRam {
    VirtualRam(seq(MEMORY_SIZE, _ => 0), 256, 1, 2, 3, 4, 5, 12, 13, 14, 15, 16, 255, 256, 2047)
  }

  /** The layout of a new machine: the standard mapping, SP at the stack's base, every cell 0. */
  lemma NewLayout()
    ensures var v := NewVirtualRam();
      && |v.memory| == MEMORY_SIZE && (forall i | 0 <= i < MEMORY_SIZE :: v.memory[i] == 0)
      && v.sp == v.stackStart == 256 && v.stackEnd == 2047
      && v.lcl == 1 && v.arg == 2 && v.thisPointer == 3 && v.thatPointer == 4
      && v.tempEnd - v.tempStart + 1 == 8 && v.tempStart == 5
      && v.staticEnd - v.staticStart + 1 == 240 && v.staticStart == 16
  {
  }

  /** `memory[address]` */
  function Cell(v: VirtualRam, address: nat): (r: Result<I16, Panic>)
    ensures r.Success? <==> address < |v.memory|
  {
    if address < |v.memory| then Success(v.memory[address]) else Failure(OutOfBounds("memory"))
  }

  /** `memory[address] = value` */
  function SetCell(v: VirtualRam, address: nat, value: I16): (r: Result<VirtualRam, Panic>)
    ensures r.Success? <==> address < |v.memory|
  {
    if address < |v.memory| then Success(v.(memory := v.memory[address := value])) else Failure(OutOfBounds("memory"))
  }

  /** The messages `resolve_segment` panics with. */
  const PTR_BOUNDS := "Index out of bounds for pointer segment"
  const TEMP_BOUNDS := "Index out of bounds for TEMP segment"
  const STATIC_BOUNDS := "Index out of bounds for STATIC segment"
  const INVALID_SEGMENT := "Invalid segment name"

  /** `resolve_segment`: the address a segment name and index denote. */
  function ResolveSegment(v: VirtualRam, segment: string, index: nat): (r: Result<nat, Panic>)
  {
    if segment == "local" then Success(v.lcl)
    else if segment == "argument" then Success(v.arg)
    else if segment == "pointer" then
      if index == 0 then Success(v.thisPointer)
      else if index == 1 then Success(v.thatPointer)
      else Failure(Explicit(PTR_BOUNDS))
    else if segment == "temp" then
      if v.tempEnd < v.tempStart then Failure(Overflow("temp_end - temp_start"))
      else if index > v.tempEnd - v.tempStart then Failure(Explicit(TEMP_BOUNDS))
      else Success(v.tempStart + index)
    else if segment == "constant" then Success(v.sp)
    else if segment == "static" then
      if v.staticEnd < v.staticStart then Failure(Overflow("static_end - static_start"))
      else if index > v.staticEnd - v.staticStart then Failure(Explicit(STATIC_BOUNDS))
      else Success(v.staticStart + index)
    else Failure(Explicit(INVALID_SEGMENT))
  }

  /** The segment rules on the layout of a new machine. */
  lemma ResolveRules(segment: string, index: nat)
    ensures var r := ResolveSegment(NewVirtualRam(), segment, index);
      && (segment == "local" ==> r == Success(1))
      && (segment == "argument" ==> r == Success(2))
      && (segment == "pointer" ==> r == if index == 0 then Success(3) else if index == 1 then Success(4) else Failure(Explicit(PTR_BOUNDS)))
      && (segment == "temp" ==> r == if index <= 7 then Success(5 + index) else Failure(Explicit(TEMP_BOUNDS)))
      && (segment == "static" ==> r == if index <= 239 then Success(16 + index) else Failure(Explicit(STATIC_BOUNDS)))
      && (segment == "constant" ==> r == Success(256))
      && (segment !in {"local", "argument", "pointer", "temp", "static", "constant"} ==> r == Failure(Explicit(INVALID_SEGMENT)))
  {
  }

  /** `push`: copies the resolved cell to RAM[SP] and increments SP. */
  function Push(v: VirtualRam, segment: string, index: nat): (r: Result<VirtualRam, Panic>)
    ensures r.Success? ==> r.value.sp == v.sp + 1 && |r.value.memory| == |v.memory|
    ensures r.Success? ==> ResolveSegment(v, segment, index).Success?
    ensures r.Success? ==> var a := ResolveSegment(v, segment, index).value;
      && a < |v.memory| && v.sp < |v.memory|
      && r.value.memory == v.memory[v.sp := v.memory[a]]
    ensures var a := ResolveSegment(v, segment, index);
      r.Success? <==> a.Success? && a.value < |v.memory| && v.sp < |v.memory|
    ensures var a := ResolveSegment(v, segment, index);
      a.Failure? ==> r == Failure(a.error)
  {
    var address :- ResolveSegment(v, segment, index);
    var value :- Cell(v, address);
    var w :- SetCell(v, v.sp, value);
    Success(w.(sp := v.sp + 1))
  }

  /** `pop`: copies RAM[SP] to the resolved cell; SP does not move. */
  function Pop(v: VirtualRam, segment: string, index: nat): (r: Result<VirtualRam, Panic>)
    ensures r.Success? ==> r.value.sp == v.sp
    ensures r.Success? ==> ResolveSegment(v, segment, index).Success?
    ensures r.Success? ==> var a := ResolveSegment(v, segment, index).value;
      && a < |v.memory| && v.sp < |v.memory|
      && r.value.memory == v.memory[a := v.memory[v.sp]]
    ensures var a := ResolveSegment(v, segment, index);
      r.Success? <==> a.Success? && a.value < |v.memory| && v.sp < |v.memory|
    ensures var a := ResolveSegment(v, segment, index);
      v.sp < |v.memory| && a.Failure? ==> r == Failure(a.error)
  {
    var value :- Cell(v, v.sp);
    var address :- ResolveSegment(v, segment, index);
    SetCell(v, address, value)
  }

  /** `push constant i` ignores `i` and leaves RAM unchanged: it only moves SP up. */
  lemma PushConstantIgnoresIndex(v: VirtualRam, i: nat, j: nat)
    ensures Push(v, "constant", i) == Push(v, "constant", j)
    ensures Push(v, "constant", i).Success? <==> v.sp < |v.memory|
    ensures Push(v, "constant", i).Success? ==> Push(v, "constant", i).value == v.(sp := v.sp + 1)
  {
    if v.sp < |v.memory| {
      assert v.memory[v.sp := v.memory[v.sp]] == v.memory;
    }
  }

  /**
    A pop does not see what a push pushed: after `push`, `pop` stores the
    cell above the pushed value, and a push after it goes above that again.
   */
  lemma PopAfterPushMissesValue(v: VirtualRam, s1: string, i1: nat, s2: string, i2: nat)
    requires Push(v, s1, i1).Success? && Pop(Push(v, s1, i1).value, s2, i2).Success?
    ensures var w := Push(v, s1, i1).value; var a := ResolveSegment(w, s2, i2).value;
      && Pop(w, s2, i2).value.sp == v.sp + 1
      && Pop(w, s2, i2).value.memory == w.memory[a := v.memory[v.sp + 1]]
  {
  }

  // ---------------------------------------------------------------------------
  // Arithmetic and logic

  /** The seven two-operand commands. */
  datatype BinaryOp = AddOp | SubOp | AndOp | OrOp | EqOp | GtOp | LtOp

  /**
    The common shape of the two-operand commands: y := RAM[SP], RAM[SP] := 0,
    SP := SP - 1, x := RAM[SP], then `store` decides the new RAM[SP].
   */
  function Binary(v: VirtualRam, op: BinaryOp): (r: Result<VirtualRam, Panic>)
    ensures r.Success? ==> 0 < v.sp < |v.memory| && r.value.sp == v.sp - 1 && |r.value.memory| == |v.memory|
    ensures r.Success? ==> r.value.memory[..v.sp - 1] == v.memory[..v.sp - 1]
    ensures r.Success? ==> r.value.memory[v.sp] == 0 && r.value.memory[v.sp + 1..] == v.memory[v.sp + 1..]
  {
    var y :- Cell(v, v.sp);
    var zeroed := v.memory[v.sp := 0];
    if v.sp == 0 then Failure(Overflow("sp -= 1"))
    else
      var sp := v.sp - 1;
      var x := zeroed[sp];
      var result :- Combine(op, x, y);
      Success(v.(memory := zeroed[sp := result], sp := sp))
  }

  /**
    What a two-operand command leaves at the new top. For eq, gt and lt the
    source first stores 1 when the test holds and then stores 0
    unconditionally, so 0 is what remains.
   */
  function Combine(op: BinaryOp, x: I16, y: I16): Result<I16, Panic> {
    match op
    case AddOp => CheckedI16(x + y, "x + y")
    case SubOp => CheckedI16(x - y, "x - y")
    case AndOp => Success(AndI16(x, y))
    case OrOp => Success(OrI16(x, y))
    case EqOp => Success(0)
    case GtOp => Success(0)
    case LtOp => Success(0)
  }

  function Add(v: VirtualRam): Result<VirtualRam, Panic> { Binary(v, AddOp) }
  function Sub(v: VirtualRam): Result<VirtualRam, Panic> { Binary(v, SubOp) }
  function And(v: VirtualRam): Result<VirtualRam, Panic> { Binary(v, AndOp) }
  function Or(v: VirtualRam): Result<VirtualRam, Panic> { Binary(v, OrOp) }
  function Eq(v: VirtualRam): Result<VirtualRam, Panic> { Binary(v, EqOp) }
  function Gt(v: VirtualRam): Result<VirtualRam, Panic> { Binary(v, GtOp) }
  function Lt(v: VirtualRam): Result<VirtualRam, Panic> { Binary(v, LtOp) }

  /** What add, sub, and and or mean on two `i16` values, unbounded for add and sub. */
  function Meaning(op: BinaryOp, x: I16, y: I16): int {
    match op
    case AddOp => x + y
    case SubOp => x - y
    case AndOp => AndI16(x, y)
    case OrOp => OrI16(x, y)
    case _ => 0
  }

  /**
    add, sub, and and or store x op y at RAM[SP - 1], where y is RAM[SP] and
    x is RAM[SP - 1]. They panic when SP is 0 or past the memory, and add and
    sub also when the result leaves the `i16` range.
   */
  lemma BinaryMeaning(v: VirtualRam, op: BinaryOp)
    requires op in {AddOp, SubOp, AndOp, OrOp}
    ensures Binary(v, op).Success? <==>
      0 < v.sp < |v.memory| && -32768 <= Meaning(op, v.memory[v.sp - 1], v.memory[v.sp]) < 32768
    ensures Binary(v, op).Success? ==>
      Binary(v, op).value.memory[v.sp - 1] == Meaning(op, v.memory[v.sp - 1], v.memory[v.sp])
  {
  }

  /** eq, gt and lt leave 0 at the new top whatever x and y are. */
  lemma ComparisonsAlwaysZero(v: VirtualRam, op: BinaryOp)
    requires op in {EqOp, GtOp, LtOp}
    ensures var r := Binary(v, op);
      && (r.Success? <==> 0 < v.sp < |v.memory|)
      && (r.Success? ==> r.value.memory == v.memory[v.sp := 0][v.sp - 1 := 0])
  {
  }

  /** Even when x equals y, eq reports 0. */
  lemma EqOfEqualIsZero(v: VirtualRam)
    requires 0 < v.sp < |v.memory| && v.memory[v.sp - 1] == v.memory[v.sp]
    ensures Eq(v).Success? && Eq(v).value.memory[v.sp - 1] == 0
  {
  }

  /** `neg` and `not` rewrite RAM[SP] in place. */
  function Neg(v: VirtualRam): (r: Result<VirtualRam, Panic>)
    ensures r.Success? <==> v.sp < |v.memory| && v.memory[v.sp] != -32768
    ensures r.Success? ==> r.value == v.(memory := v.memory[v.sp := -v.memory[v.sp]])
  {
    var y :- Cell(v, v.sp);
    var result :- CheckedI16(0 - y, "-y");
    SetCell(v, v.sp, result)
  }

  function Not(v: VirtualRam): (r: Result<VirtualRam, Panic>)
    ensures r.Success? <==> v.sp < |v.memory|
    ensures r.Success? ==> r.value.sp == v.sp && |r.value.memory| == |v.memory|
    ensures r.Success? ==> r.value.memory == v.memory[v.sp := r.value.memory[v.sp]]
    ensures r.Success? ==> r.value.memory[v.sp] as int == -(v.memory[v.sp] as int) - 1
  {
    var y :- Cell(v, v.sp);
    SetCell(v, v.sp, NotI16(y))
  }

  /** Negating twice gives the machine back. */
  lemma NegNeg(v: VirtualRam)
    requires Neg(v).Success?
    ensures Neg(Neg(v).value) == Success(v)
  {
    assert v.memory[v.sp := -v.memory[v.sp]][v.sp := v.memory[v.sp]] == v.memory;
  }

  /** Complementing twice gives the machine back. */
  lemma NotNot(v: VirtualRam)
    requires Not(v).Success?
    ensures Not(Not(v).value) == Success(v)
  {
    assert v.memory[v.sp := NotI16(v.memory[v.sp])][v.sp := v.memory[v.sp]] == v.memory;
  }

  /**
    After a push, add combines the pushed value with the cell above it,
    not with the value pushed before it.
   */
  lemma AddAfterPush(v: VirtualRam, segment: string, index: nat)
    requires Push(v, segment, index).Success? && Add(Push(v, segment, index).value).Success?
    ensures var w := Push(v, segment, index).value;
      Add(w).value.memory[v.sp] == w.memory[v.sp] + v.memory[v.sp + 1]
      && Add(w).value.sp == v.sp
  {
    var w := Push(v, segment, index).value;
    BinaryMeaning(w, AddOp);
  }
}
