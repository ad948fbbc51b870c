/** The symbol table of the HCL compiler (labs/04-architecture/sim/misc/node.c). */
module HclSymbols {
  import opened HclLanguage

  const SYM_LIM: nat := 100

  class SymbolTable {
    const symTab: array<Signal>
    var symCount: nat
    var errors: nat

    ghost predicate Valid()
      reads this
    {
      symTab.Length == SYM_LIM && symCount <= SYM_LIM
    }

    /** The declarations so far, in order. */
    ghost function Signals(): seq<Signal>
      requires Valid()
      reads this, symTab
    {
      symTab[..symCount]
    }

    constructor ()
      ensures Valid() && fresh(symTab) && Signals() == [] && errors == 0
    {
      symTab := new Signal[SYM_LIM](_ => Signal("", "", false));
      symCount, errors := 0, 0;
    }

    // add_arg and add_symbol: a full table reports an error and drops the declaration
    method AddArg(name: string, text: string, isbool: bool)
      requires Valid()
      modifies this, symTab
      ensures Valid()
      ensures if old(symCount) < SYM_LIM then Signals() == old(Signals()) + [Signal(name, text, isbool)] && errors == old(errors)
              else Signals() == old(Signals()) && errors == old(errors) + 1
    {
      if symCount >= SYM_LIM {
        errors := errors + 1;
        return;
      }
      symTab[symCount] := Signal(name, text, isbool);
      symCount := symCount + 1;
    }

    // find_symbol: the first declaration of the name, or -1 and an error
    method FindSymbol(name: string) returns (i: int)
      requires Valid()
      modifies this`errors
      ensures Valid() && i == Find(Signals(), name)
      ensures errors == old(errors) + (if i < 0 then 1 else 0)
    {
      i := 0;
      while i < symCount
        invariant 0 <= i <= symCount && errors == old(errors)
        invariant Find(Signals(), name) == var k := Find(Signals()[i..], name); if k < 0 then -1 else k + i
      {
        assert Signals()[i..][1..] == Signals()[i + 1..];
        if symTab[i].name == name {
          return;
        }
        i := i + 1;
      }
      errors := errors + 1;
      i := -1;
    }
  }

  /** A later declaration of a name never changes what it stands for. */
  lemma {:induction false} FirstDeclarationWins(syms: seq<Signal>, s: Signal, name: string)
    ensures Find(syms, name) >= 0 ==> Find(syms + [s], name) == Find(syms, name)
    ensures Find(syms, name) < 0 ==> Find(syms + [s], name) == if s.name == name then |syms| else -1
  {
    if syms != [] && syms[0].name != name {
      FirstDeclarationWins(syms[1..], s, name);
      assert (syms + [s])[1..] == syms[1..] + [s];
    }
  }
}
