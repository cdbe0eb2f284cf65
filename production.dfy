/** The `Production` and `LRItem` classes of rply/grammar.py. */
module Productions {
  import opened Wrappers
  import opened Lists

  /** A precedence declaration: an associativity and a level. */
  datatype Precedence = Precedence(assoc: string, level: int)

  /** The precedence a rule gets when none is declared or inherited. */
  const DefaultPrecedence := Precedence("right", 0)

  /** One rule `name -> prod` of a grammar, numbered by its position in the grammar's list. */
  class Production {
    const number: int
    const name: string
    const prod: seq<string>
    const prec: Precedence
    /** `list(set(prod))`; its order is irrelevant, so it is a set here. */
    const uniqueSyms: set<string>
    var lrItems: seq<LRItem>
    var lrNext: LRItem?

    constructor (number: int, name: string, prod: seq<string>, prec: Precedence)
      ensures this.number == number && this.name == name && this.prod == prod && this.prec == prec
      ensures uniqueSyms == set x | x in prod
      ensures lrItems == [] && lrNext == null
    {
      this.number := number;
      this.name := name;
      this.prod := prod;
      this.prec := prec;
      uniqueSyms := set x | x in prod;
      lrItems := [];
      lrNext := null;
    }

    /** `len(p)`: the number of symbols on the right-hand side. */
    function Length(): nat
    {
      |prod|
    }
  }

  /** The LR(0) item of production `p` with the dot before position `lrIndex`. */
  class LRItem {
    const name: string
    const prod: seq<string>
    const number: int
    const lrIndex: nat
    const uniqueSyms: set<string>
    const lrBefore: Option<string>
    const lrAfter: seq<Production>
    var lrNext: LRItem?

    constructor (p: Production, n: nat, before: Option<string>, after: seq<Production>)
      ensures name == p.name && prod == Insert(p.prod, n, ".") && number == p.number
      ensures lrIndex == n && uniqueSyms == p.uniqueSyms
      ensures lrBefore == before && lrAfter == after && lrNext == null
    {
      name := p.name;
      prod := Insert(p.prod, n, ".");
      number := p.number;
      lrIndex := n;
      uniqueSyms := p.uniqueSyms;
      lrBefore := before;
      lrAfter := after;
      lrNext := null;
    }

    /** `len(item)`: the symbols and the dot. */
    function Length(): nat
    {
      |prod|
    }
  }
}
