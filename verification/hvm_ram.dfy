/**
  `Ram` of `hvm/src/ram.rs`: 32768 sixteen-bit cells, all 0 at first, read
  and written by address. An address past the end makes the array index
  panic.
 */
module HvmRam {
  import opened Wrappers
  import opened RustInts

  const RAM_SIZE: nat := 32768

  datatype Ram = Ram(memory: seq<U16>)

  /** `Ram::new` */
  function NewRam(): (r: Ram)
    ensures |r.memory| == RAM_SIZE
  {
    Ram(seq(RAM_SIZE, _ => 0))
  }

  /** `Ram::read` */
  function Read(ram: Ram, address: nat): (r: Result<U16, Panic>)
    ensures r.Success? <==> address < |ram.memory|
  {
    if address < |ram.memory| then Success(ram.memory[address]) else Failure(OutOfBounds("Ram::read"))
  }

  /** `Ram::write` */
  function Write(ram: Ram, address: nat, value: U16): (r: Result<Ram, Panic>)
    ensures r.Success? <==> address < |ram.memory|
    ensures r.Success? ==> |r.value.memory| == |ram.memory|
  {
    if address < |ram.memory| then Success(Ram(ram.memory[address := value])) else Failure(OutOfBounds("Ram::write"))
  }

  /** A new RAM reads 0 at every address below 32768 and panics from there on. */
  lemma NewReadsZero(address: nat)
    ensures Read(NewRam(), address) == if address < RAM_SIZE then Success(0) else Failure(OutOfBounds("Ram::read"))
  {
  }

  /** A written cell reads back the value written. */
  lemma ReadAfterWrite(ram: Ram, address: nat, value: U16)
    requires address < |ram.memory|
    ensures Read(Write(ram, address, value).value, address) == Success(value)
  {
  }

  /** Writing one cell leaves every other cell as it was. */
  lemma WriteOthers(ram: Ram, address: nat, value: U16, other: nat)
    requires address < |ram.memory| && other != address
    ensures Read(Write(ram, address, value).value, other) == Read(ram, other)
  {
  }

  /** Of two writes to the same cell, the later one wins. */
  lemma WriteTwice(ram: Ram, address: nat, v1: U16, v2: U16)
    requires address < |ram.memory|
    ensures Write(Write(ram, address, v1).value, address, v2) == Write(ram, address, v2)
  {
    assert ram.memory[address := v1][address := v2] == ram.memory[address := v2];
  }
}
