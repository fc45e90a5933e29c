/**
  The C-instruction field tables of the Hack assembler
  (`assembler/src/code.rs`): mnemonic to bits for the comp, dest and jump
  fields, as section 4.2.3 of "The Elements of Computing Systems" lays them
  out. An unknown mnemonic panics.

  Each table is checked against the machine: the comp bits, fed to the Hack
  ALU, compute what the mnemonic means; the dest bits say which registers
  are written; the jump bits say for which sign of the result the jump is
  taken.
 */
module AsmCode {
  import opened Wrappers
  import opened Text
  import opened Hack

  /** `comp_to_bin`: the a-bit followed by the six ALU control bits. */
  function CompToBin(comp: string): (r: Result<string, Panic>)
    ensures r.Success? ==> |r.value| == 7 && AllBits(r.value)
  {
    match comp
    case "0" => Success("0101010")
    case "1" => Success("0111111")
    case "-1" => Success("0111010")
    case "D" => Success("0001100")
    case "A" => Success("0110000")
    case "M" => Success("1110000")
    case "!D" => Success("0001101")
    case "!A" => Success("0110001")
    case "!M" => Success("1110001")
    case "-D" => Success("0001111")
    case "-A" => Success("0110011")
    case "-M" => Success("1110011")
    case "D+1" => Success("0011111")
    case "A+1" => Success("0110111")
    case "M+1" => Success("1110111")
    case "D-1" => Success("0001110")
    case "A-1" => Success("0110010")
    case "M-1" => Success("1110010")
    case "D+A" => Success("0000010")
    case "D+M" => Success("1000010")
    case "D-A" => Success("0010011")
    case "D-M" => Success("1010011")
    case "A-D" => Success("0000111")
    case "M-D" => Success("1000111")
    case "D&A" => Success("0000000")
    case "D&M" => Success("1000000")
    case "D|A" => Success("0010101")
    case "D|M" => Success("1010101")
    case _ => Failure(Explicit("Instruction de calcul inconnue: " + comp))
  }

  /** `dest_to_bin`: the A, D and M store bits. */
  function DestToBin(dest: Option<string>): (r: Result<string, Panic>)
    ensures r.Success? ==> |r.value| == 3 && AllBits(r.value)
  {
    match dest
    case None => Success("000")
    case Some("M") => Success("001")
    case Some("D") => Success("010")
    case Some("MD") => Success("011")
    case Some("A") => Success("100")
    case Some("AM") => Success("101")
    case Some("AD") => Success("110")
    case Some("AMD") => Success("111")
    case _ => Failure(Explicit("Destination inconnue"))
  }

  /** `jump_to_bin`: the jump-if-negative, jump-if-zero and jump-if-positive bits. */
  function JumpToBin(jump: Option<string>): (r: Result<string, Panic>)
    ensures r.Success? ==> |r.value| == 3 && AllBits(r.value)
  {
    match jump
    case None => Success("000")
    case Some("JGT") => Success("001")
    case Some("JEQ") => Success("010")
    case Some("JGE") => Success("011")
    case Some("JLT") => Success("100")
    case Some("JNE") => Success("101")
    case Some("JLE") => Success("110")
    case Some("JMP") => Success("111")
    case _ => Failure(Explicit("Saut inconnu"))
  }

  // ---------------------------------------------------------------------------
  // The machine that reads the bits

  /**
    The Hack ALU (chapter 2 of the book): zero and negate each input as the
    control bits say, add or and them, and negate the output.
   */
  function Alu(x: Word, y: Word, zx: bool, nx: bool, zy: bool, ny: bool, f: bool, no: bool): Word {
    var x1 := if zx then 0 else x;
    var x2 := if nx then Not16(x1) else x1;
    var y1 := if zy then 0 else y;
    var y2 := if ny then Not16(y1) else y1;
    var out := if f then Wrap(x2 + y2) else And16(x2, y2);
    if no then Not16(out) else out
  }

  /** What the CPU computes from a 7-bit comp field: x is D, y is A or M as the a-bit says. */
  function RunComp(bits: string, a: Word, d: Word, m: Word): Word
    requires |bits| == 7
  {
    Alu(d, if bits[0] == '1' then m else a,
        bits[1] == '1', bits[2] == '1', bits[3] == '1', bits[4] == '1', bits[5] == '1', bits[6] == '1')
  }

  /** All sixteen bits set. */
  const Ones16: Word := 65535

  /** And-ing with all ones changes nothing, on either side. */
  lemma AndOnes(x: Word)
    ensures And16(x, Ones16) == x && And16(Ones16, x) == x
  {
    assert Pow2(8) == 256;
    assert Pow2(16) == Ones16 + 1;
    BitAndOnes(x, 16);
    BitAndComm(x, Ones16);
  }

  lemma {:induction false} BitAndOnes(x: nat, k: nat)
    requires x < Pow2(k)
    ensures BitAnd(x, Pow2(k) - 1) == x
  {
    if k > 0 && x > 0 {
      BitAndOnes(x / 2, k - 1);
    }
  }

  /** The comp mnemonic the 7 bits stand for, when they stand for one. */
  function CompOfBits(bits: string): (c: Option<Comp>)
  {
    match bits
    case "0101010" => Some(Zero)
    case "0111111" => Some(One)
    case "0111010" => Some(MinusOne)
    case "0001100" => Some(D)
    case "0110000" => Some(A)
    case "1110000" => Some(M)
    case "0001101" => Some(NotD)
    case "0110001" => Some(NotA)
    case "1110001" => Some(NotM)
    case "0001111" => Some(NegD)
    case "0110011" => Some(NegA)
    case "1110011" => Some(NegM)
    case "0011111" => Some(DPlusOne)
    case "0110111" => Some(APlusOne)
    case "1110111" => Some(MPlusOne)
    case "0001110" => Some(DMinusOne)
    case "0110010" => Some(AMinusOne)
    case "1110010" => Some(MMinusOne)
    case "0000010" => Some(DPlusA)
    case "1000010" => Some(DPlusM)
    case "0010011" => Some(DMinusA)
    case "1010011" => Some(DMinusM)
    case "0000111" => Some(AMinusD)
    case "1000111" => Some(MMinusD)
    case "0000000" => Some(DAndA)
    case "1000000" => Some(DAndM)
    case "0010101" => Some(DOrA)
    case "1010101" => Some(DOrM)
    case _ => None
  }

  /**
    What the table promises for one computation `c`: its mnemonic is
    accepted; the bits name `c` back; fed to the ALU they compute what `c`
    means; and the a-bit is set exactly when the mnemonic reads M.
   */
  predicate CompRow(c: Comp, a: Word, d: Word, m: Word) {
    && CompToBin(CompText(c)).Success?
    && CompOfBits(CompToBin(CompText(c)).value) == Some(c)
    && RunComp(CompToBin(CompText(c)).value, a, d, m) == Eval(c, a, d, m)
    && (CompToBin(CompText(c)).value[0] == '1' <==> 'M' in CompText(c))
  }

  /** Every one of the 28 computations of the Hack ALU is encoded correctly. */
  lemma CompTable(c: Comp, a: Word, d: Word, m: Word)
    ensures CompRow(c, a, d, m)
  {
    if c in {Zero, One, MinusOne} {
      ConstantRows(c, a, d, m);
    } else if c in {D, NotD, NegD, DPlusOne, DMinusOne} {
      DRows(c, a, d, m);
    } else if c in {A, NotA, NegA, APlusOne, AMinusOne} {
      ARows(c, a, d, m);
    } else if c in {M, NotM, NegM, MPlusOne, MMinusOne} {
      MRows(c, a, d, m);
    } else if c in {DPlusA, DMinusA, AMinusD} {
      DARows(c, a, d, m);
    } else if c in {DPlusM, DMinusM, MMinusD} {
      DMRows(c, a, d, m);
    } else {
      assert c in {DAndA, DAndM, DOrA, DOrM};
      if c in {DAndA, DAndM} {
        AndRows(c, a, d, m);
      } else {
        OrRows(c, a, d, m);
      }
    }
  }

  lemma ConstantRows(c: Comp, a: Word, d: Word, m: Word)
    requires c in {Zero, One, MinusOne}
    ensures CompRow(c, a, d, m)
  {
  }

  lemma DRows(c: Comp, a: Word, d: Word, m: Word)
    requires c in {D, NotD, NegD, DPlusOne, DMinusOne}
    ensures CompRow(c, a, d, m)
  {
    AndOnes(d);
  }

  lemma ARows(c: Comp, a: Word, d: Word, m: Word)
    requires c in {A, NotA, NegA, APlusOne, AMinusOne}
    ensures CompRow(c, a, d, m)
  {
    AndOnes(a);
  }

  lemma MRows(c: Comp, a: Word, d: Word, m: Word)
    requires c in {M, NotM, NegM, MPlusOne, MMinusOne}
    ensures CompRow(c, a, d, m)
  {
    AndOnes(m);
  }

  lemma DARows(c: Comp, a: Word, d: Word, m: Word)
    requires c in {DPlusA, DMinusA, AMinusD}
    ensures CompRow(c, a, d, m)
  {
  }

  lemma DMRows(c: Comp, a: Word, d: Word, m: Word)
    requires c in {DPlusM, DMinusM, MMinusD}
    ensures CompRow(c, a, d, m)
  {
  }

  lemma AndRows(c: Comp, a: Word, d: Word, m: Word)
    requires c in {DAndA, DAndM}
    ensures CompRow(c, a, d, m)
  {
  }

  lemma OrRows(c: Comp, a: Word, d: Word, m: Word)
    requires c in {DOrA, DOrM}
    ensures CompRow(c, a, d, m)
  {
  }

  /**
    `comp_to_bin` accepts nothing but the 28 mnemonics: whatever it accepts,
    the bits it gives name that very mnemonic back. Mnemonics are one to
    three characters long; the two lemmas below split on that length.
   */
  lemma CompDomain(comp: string)
    ensures CompToBin(comp).Success? ==>
      CompOfBits(CompToBin(comp).value).Some? && CompText(CompOfBits(CompToBin(comp).value).value) == comp
  {
    if |comp| <= 2 {
      ShortCompDomain(comp);
    } else if |comp| == 3 {
      LongCompDomain(comp);
    }
  }

  lemma ShortCompDomain(comp: string)
    requires |comp| <= 2
    ensures CompToBin(comp).Success? ==>
      CompOfBits(CompToBin(comp).value).Some? && CompText(CompOfBits(CompToBin(comp).value).value) == comp
  {
  }

  lemma LongCompDomain(comp: string)
    requires |comp| == 3
    ensures CompToBin(comp).Success? ==>
      CompOfBits(CompToBin(comp).value).Some? && CompText(CompOfBits(CompToBin(comp).value).value) == comp
  {
  }

  /** Distinct mnemonics get distinct bits. */
  lemma CompInjective(c1: string, c2: string)
    requires CompToBin(c1).Success? && CompToBin(c2).Success? && CompToBin(c1) == CompToBin(c2)
    ensures c1 == c2
  {
    CompDomain(c1);
    CompDomain(c2);
  }

  /** Which registers three dest bits make the CPU write. */
  function DestOfBits(bits: string): Dest
    requires |bits| == 3
  {
    Dest(bits[0] == '1', bits[1] == '1', bits[2] == '1')
  }

  /** Every dest spelling of the book encodes the registers it names. */
  lemma DestMeaning(dst: Dest)
    ensures DestToBin(DestText(dst)).Success? && DestOfBits(DestToBin(DestText(dst)).value) == dst
  {
  }

  /** `dest_to_bin` accepts only the canonical spellings: "DM" or "MA" panic. */
  lemma DestDomain(dest: Option<string>)
    ensures DestToBin(dest).Success? ==> DestText(DestOfBits(DestToBin(dest).value)) == dest
  {
  }

  /** Whether the CPU jumps on the value `v`, given the three jump bits. */
  predicate JumpsOn(bits: string, v: Word)
    requires |bits| == 3
  {
    || (bits[0] == '1' && Signed(v) < 0)
    || (bits[1] == '1' && Signed(v) == 0)
    || (bits[2] == '1' && Signed(v) > 0)
  }

  /** Every jump mnemonic encodes the condition it names. */
  lemma JumpMeaning(j: Jump, v: Word)
    ensures JumpToBin(JumpText(j)).Success?
    ensures JumpsOn(JumpToBin(JumpText(j)).value, v) <==> Taken(j, v)
  {
  }

  /** The jump a three-bit field stands for. */
  function JumpOfBits(bits: string): Jump
    requires |bits| == 3
  {
    match (bits[0] == '1', bits[1] == '1', bits[2] == '1')
    case (false, false, false) => NoJump
    case (false, false, true) => JGT
    case (false, true, false) => JEQ
    case (false, true, true) => JGE
    case (true, false, false) => JLT
    case (true, false, true) => JNE
    case (true, true, false) => JLE
    case (true, true, true) => JMP
  }

  /** `jump_to_bin` accepts only the seven mnemonics and no jump at all. */
  lemma JumpDomain(jump: Option<string>)
    ensures JumpToBin(jump).Success? ==> JumpText(JumpOfBits(JumpToBin(jump).value)) == jump
  {
  }
}
