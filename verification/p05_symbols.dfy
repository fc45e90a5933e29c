/**
  `SymbolTable` of `project05-assembler/src/symbol_table.rs`: a vector of
  (name, address) entries that `add_entry` appends to. Nothing is looked up
  or replaced, so a name added twice has two entries; read back by its last
  entry, the vector behaves like a map whose later bindings win.
 */
module P05Symbols {
  import opened Wrappers

  datatype Symbol = Symbol(name: string, address: nat)

  datatype SymbolTable = SymbolTable(entries: seq<Symbol>)

  /** `SymbolTable::new` */
  function NewSymbolTable(): (r: SymbolTable)
    ensures |r.entries| == 0
  {
    SymbolTable([])
  }

  /** `add_entry` */
  function AddEntry(t: SymbolTable, name: string, address: nat): (r: SymbolTable)
    ensures |r.entries| == |t.entries| + 1
    ensures r.entries[..|t.entries|] == t.entries
    ensures r.entries[|t.entries|] == Symbol(name, address)
  {
    SymbolTable(t.entries + [Symbol(name, address)])
  }

  /** The address of the last entry for `name`, if there is one. */
  function Latest(entries: seq<Symbol>, name: string): (r: Option<nat>)
    ensures r.None? <==> forall k | 0 <= k < |entries| :: entries[k].name != name
    ensures r.Some? ==> exists k | 0 <= k < |entries| :: entries[k] == Symbol(name, r.value)
  {
    if |entries| == 0 then None
    else
      var last := entries[|entries| - 1];
      if last.name == name then Some(last.address)
      else
        var r := Latest(entries[..|entries| - 1], name);
        assert forall k | 0 <= k < |entries| - 1 :: entries[..|entries| - 1][k] == entries[k];
        r
  }

  /** Adding an entry rebinds its name and leaves every other name as it was. */
  lemma AddEntryRebinds(t: SymbolTable, name: string, address: nat, other: string)
    ensures Latest(AddEntry(t, name, address).entries, name) == Some(address)
    ensures other != name ==> Latest(AddEntry(t, name, address).entries, other) == Latest(t.entries, other)
  {
    assert (t.entries + [Symbol(name, address)])[..|t.entries|] == t.entries;
  }

  /** Entries are never merged: the same name added twice gives two entries. */
  lemma DuplicatesKept(t: SymbolTable, name: string, a1: nat, a2: nat)
    ensures var r := AddEntry(AddEntry(t, name, a1), name, a2);
      |r.entries| == |t.entries| + 2 && r.entries[|t.entries|] == Symbol(name, a1) && r.entries[|t.entries| + 1] == Symbol(name, a2)
  {
  }

  /** The unit test's case: a new table with "test" added at 1 holds that one entry. */
  lemma AddToNew()
    ensures AddEntry(NewSymbolTable(), "test", 1) == SymbolTable([Symbol("test", 1)])
  {
  }
}
