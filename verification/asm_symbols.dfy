/**
  `SymbolTable` of `assembler/src/symbol_table.rs`: a map from symbol to
  `u16` address and the next free variable address. A new table knows R0 to
  R15, SCREEN and KBD and hands out variables from 16 on; a symbol seen for
  the first time is bound to the next variable address, which then moves
  up by one (panicking on `u16` overflow).
 */
module AsmSymbols {
  import opened Wrappers
  import opened Text
  import opened RustInts

  datatype SymbolTable = SymbolTable(table: map<string, U16>, nextVarAddress: U16)

  /** The name of register `i`: "R" followed by its decimal number. */
  function Register(i: nat): string {
    "R" + Dec(i)
  }

  /** The bindings of R0 .. R(n-1), inserted in increasing order. */
  function Registers(n: nat): map<string, U16>
    requires n <= 16
  {
    if n == 0 then map[] else Registers(n - 1)[Register(n - 1) := n - 1]
  }

  /** The number of named registers, R0 to R15. */
  const REGISTERS: nat := 16

  /** `SymbolTable::new` */
  function NewSymbolTable(): SymbolTable {
    SymbolTable(Registers(REGISTERS)["SCREEN" := 16384]["KBD" := 24576], 16)
  }

  /** Register names of different numbers differ. */
  lemma RegisterInjective(i: nat, j: nat)
    ensures Register(i) == Register(j) ==> i == j
  {
    if Register(i) == Register(j) {
      assert Dec(i) == Register(i)[1..] == Register(j)[1..] == Dec(j);
      DecInjective(i, j);
    }
  }

  /** R0 .. R(n-1) are bound to their numbers, and nothing else is bound. */
  lemma {:induction false} RegistersBind(n: nat)
    requires n <= 16
    ensures forall s :: s in Registers(n) <==> exists i :: 0 <= i < n && s == Register(i)
    ensures forall i | 0 <= i < n :: Register(i) in Registers(n) && Registers(n)[Register(i)] == i
  {
    if n > 0 {
      RegistersBind(n - 1);
      forall i | 0 <= i < n - 1
        ensures Registers(n)[Register(i)] == i
      {
        RegisterInjective(i, n - 1);
      }
    }
  }

  /** Register names start with 'R', so they are neither SCREEN nor KBD. */
  lemma RegisterNotDevice(i: nat)
    ensures Register(i) != "SCREEN" && Register(i) != "KBD"
  {
    assert Register(i)[0] == 'R';
  }

  /**
    A new table binds R0 .. R15 to 0 .. 15, SCREEN to 16384 and KBD to
    24576, and allocates variables from 16.
   */
  lemma NewTable()
    ensures var t := NewSymbolTable();
      && t.nextVarAddress == 16
      && t.table["SCREEN"] == 16384 && t.table["KBD"] == 24576
      && (forall i | 0 <= i < 16 :: Register(i) in t.table && t.table[Register(i)] == i)
  {
    RegistersBind(REGISTERS);
    forall i | 0 <= i < REGISTERS
      ensures Register(i) != "SCREEN" && Register(i) != "KBD"
    {
      RegisterNotDevice(i);
    }
  }

  /** A new table binds nothing but the registers, SCREEN and KBD. */
  lemma NewTableDomain()
    ensures forall s :: s in NewSymbolTable().table <==>
      s == "SCREEN" || s == "KBD" || exists i :: 0 <= i < 16 && s == Register(i)
  {
    RegistersBind(REGISTERS);
  }

  /** `add_label`: binds or rebinds a label; the variable counter stays. */
  function AddLabel(t: SymbolTable, name: string, address: U16): (r: SymbolTable)
    ensures r.nextVarAddress == t.nextVarAddress
    ensures name in r.table && r.table[name] == address
    ensures forall s | s != name :: (s in r.table <==> s in t.table) && (s in t.table ==> r.table[s] == t.table[s])
  {
    t.(table := t.table[name := address])
  }

  /**
    `get_address`: the bound address of a known symbol, with nothing
    changed; otherwise the symbol is bound to the next variable address and
    the counter moves on.
   */
  function GetAddress(t: SymbolTable, symbol: string): (r: Result<(SymbolTable, U16), Panic>)
    ensures symbol in t.table ==> r == Success((t, t.table[symbol]))
    ensures symbol !in t.table ==> (r.Success? <==> t.nextVarAddress < 65535)
    ensures symbol !in t.table && r.Success? ==>
      && r.value.1 == t.nextVarAddress
      && r.value.0.nextVarAddress == t.nextVarAddress + 1
      && r.value.0.table == t.table[symbol := t.nextVarAddress]
  {
    if symbol in t.table then Success((t, t.table[symbol]))
    else
      var address := t.nextVarAddress;
      var table := t.table[symbol := address];
      if address + 1 < 65536 then Success((SymbolTable(table, address + 1), address))
      else Failure(Overflow("next_var_address += 1"))
  }

  /** `get_last_ram_address` */
  function LastRamAddress(t: SymbolTable): U16 {
    t.nextVarAddress
  }

  /** Asking twice gives the same address, and the second time changes nothing. */
  lemma GetAddressIdempotent(t: SymbolTable, symbol: string)
    requires GetAddress(t, symbol).Success?
    ensures var (t1, a1) := GetAddress(t, symbol).value;
      GetAddress(t1, symbol) == Success((t1, a1))
  {
  }

  /** Looks up every symbol in turn, collecting the addresses. */
  function GetAll(t: SymbolTable, symbols: seq<string>): Result<(SymbolTable, seq<U16>), Panic>
    decreases |symbols|
  {
    if |symbols| == 0 then Success((t, []))
    else
      var (t1, a) :- GetAddress(t, symbols[0]);
      var (t2, rest) :- GetAll(t1, symbols[1..]);
      Success((t2, [a] + rest))
  }

  /** No symbol appears twice and none is bound yet. */
  predicate Fresh(t: SymbolTable, symbols: seq<string>) {
    && (forall i, j | 0 <= i < j < |symbols| :: symbols[i] != symbols[j])
    && (forall i | 0 <= i < |symbols| :: symbols[i] !in t.table)
  }

  /**
    Fresh variables get consecutive addresses from the counter on: with the
    counter at `n`, the k-th new symbol gets `n + k`.
   */
  lemma {:induction false} FreshConsecutive(t: SymbolTable, symbols: seq<string>)
    requires Fresh(t, symbols) && t.nextVarAddress + |symbols| < 65536
    ensures GetAll(t, symbols).Success?
    ensures var (t1, addresses) := GetAll(t, symbols).value;
      && |addresses| == |symbols|
      && (forall k | 0 <= k < |symbols| :: addresses[k] == t.nextVarAddress + k)
      && t1.nextVarAddress == t.nextVarAddress + |symbols|
    decreases |symbols|
  {
    if |symbols| > 0 {
      var (t1, a) := GetAddress(t, symbols[0]).value;
      assert Fresh(t1, symbols[1..]) by {
        forall i | 0 <= i < |symbols[1..]|
          ensures symbols[1..][i] !in t1.table
        {
          assert symbols[1..][i] == symbols[i + 1] != symbols[0];
        }
      }
      FreshConsecutive(t1, symbols[1..]);
    }
  }
}
