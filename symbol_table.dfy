/**
 * The per-predicate symbol table of the `pintc` compiler: a map from fully
 * qualified names to the span where each was first declared, with the three
 * ways of adding to it and the clash check between two tables.
 */
module SymbolTables {
  import opened Util

  /** A byte range of the source text. */
  datatype Span = Span(start: nat, end: nat)

  datatype Ident = Ident(name: string, span: Span)

  /** The `NameClash` parse error: the clashing name, where it was redeclared, where it was first declared. */
  datatype NameClash = NameClash(sym: string, span: Span, prevSpan: Span)

  /**
   * The full name of `name` declared in module `modPrefix`, inside the local
   * scope `localScope` if there is one: the module prefix, then the scope
   * followed by `::`, then the name itself.
   */
  function MakeFullSymbol(modPrefix: string, localScope: Option<string>, name: Ident): (full: string)
    ensures |full| == |modPrefix| + (if localScope.Some? then |localScope.value| + 2 else 0) + |name.name|
    ensures full[..|modPrefix|] == modPrefix
    ensures full[|full| - |name.name|..] == name.name
    ensures localScope.Some? ==>
      full[|modPrefix|..|modPrefix| + |localScope.value| + 2] == localScope.value + "::"
  {
    var scope := if localScope.Some? then localScope.value + "::" else "";
    modPrefix + scope + name.name
  }

  /** Within one module and scope, two names give the same full name only if they are the same name. */
  lemma FullSymbolInjective(modPrefix: string, localScope: Option<string>, a: Ident, b: Ident)
    requires MakeFullSymbol(modPrefix, localScope, a) == MakeFullSymbol(modPrefix, localScope, b)
    ensures a.name == b.name
  {
    var fa := MakeFullSymbol(modPrefix, localScope, a);
    var k := |modPrefix| + (if localScope.Some? then |localScope.value| + 2 else 0);
    assert fa[k..] == a.name;
    assert fa[k..] == b.name;
  }

  /** The error sink that compiler passes report to. */
  class Handler {
    var errors: seq<NameClash>

    constructor ()
      ensures errors == []
    {
      errors := [];
    }

    predicate HasErrors()
      reads this
    {
      errors != []
    }
  }

  /** The clash errors that merging `other` into `mine` produces: one per name present in both. */
  ghost function Clashes(mine: map<string, Span>, other: map<string, Span>): set<NameClash>
  {
    ClashesAmong(mine, other, other.Keys)
  }

  ghost function ClashesAmong(mine: map<string, Span>, other: map<string, Span>, names: set<string>): set<NameClash>
  {
    set s | s in names && s in other && s in mine :: NameClash(s, other[s], mine[s])
  }

  class SymbolTable {
    var symbols: map<string, Span>

    constructor ()
      ensures symbols == map[]
    {
      symbols := map[];
    }

    /**
     * Adds the full name of `name` unless it is already present; the span
     * recorded first is kept. Returns the full name either way.
     */
    method AddSymbolNoClash(modPrefix: string, localScope: Option<string>, name: Ident, span: Span)
      returns (full: string)
      modifies this
      ensures full == MakeFullSymbol(modPrefix, localScope, name)
      ensures full in symbols
      ensures full in old(symbols) ==> symbols == old(symbols)
      ensures full !in old(symbols) ==> symbols == old(symbols)[full := span]
    {
      full := MakeFullSymbol(modPrefix, localScope, name);
      if full !in symbols {
        symbols := symbols[full := span];
      }
    }

    /**
     * Adds the full name of `name`. If it is already present, reports a
     * NameClash (naming the short name, its span and the earlier span) to
     * `handler` and leaves the table as it was.
     */
    method AddSymbol(handler: Handler, modPrefix: string, localScope: Option<string>, name: Ident, span: Span)
      returns (r: Result<string>)
      modifies this, handler
      ensures var full := MakeFullSymbol(modPrefix, localScope, name);
        if full in old(symbols) then
          && r.Err? && symbols == old(symbols)
          && handler.errors == old(handler.errors) + [NameClash(name.name, name.span, old(symbols)[full])]
        else
          && r == Ok(full) && symbols == old(symbols)[full := span]
          && handler.errors == old(handler.errors)
    {
      var full := MakeFullSymbol(modPrefix, localScope, name);
      if full in symbols {
        handler.errors := handler.errors + [NameClash(name.name, name.span, symbols[full])];
        r := Err;
      } else {
        symbols := symbols[full := span];
        r := Ok(full);
      }
    }

    /**
     * Reports one NameClash for every name of `other` that this table already
     * holds (in no particular order, as a hash map is iterated), and fails if
     * the handler holds any error afterwards, including errors reported
     * before the call. Neither table changes.
     */
    method CheckForClash(handler: Handler, other: SymbolTable) returns (ok: bool)
      modifies handler
      ensures |handler.errors| >= |old(handler.errors)|
      ensures var added := handler.errors[|old(handler.errors)|..];
        && handler.errors[..|old(handler.errors)|] == old(handler.errors)
        && (set e | e in added) == Clashes(symbols, other.symbols)
        && (forall i, j :: 0 <= i < j < |added| ==> added[i].sym != added[j].sym)
      ensures ok <==> handler.errors == []
    {
      ghost var before := handler.errors;
      var remaining := other.symbols.Keys;
      ghost var done: set<string> := {};
      while remaining != {}
        invariant remaining <= other.symbols.Keys
        invariant done == other.symbols.Keys - remaining
        invariant |handler.errors| >= |before| && handler.errors[..|before|] == before
        invariant var added := handler.errors[|before|..];
          && (set e | e in added) == ClashesAmong(symbols, other.symbols, done)
          && (forall i :: 0 <= i < |added| ==> added[i].sym !in remaining)
          && (forall i, j :: 0 <= i < j < |added| ==> added[i].sym != added[j].sym)
        decreases remaining
      {
        var s :| s in remaining;
        ghost var added := handler.errors[|before|..];
        if s in symbols {
          var clash := NameClash(s, other.symbols[s], symbols[s]);
          handler.errors := handler.errors + [clash];
          assert handler.errors[|before|..] == added + [clash];
          assert ClashesAmong(symbols, other.symbols, done + {s}) == ClashesAmong(symbols, other.symbols, done) + {clash};
        } else {
          assert handler.errors[|before|..] == added;
          assert ClashesAmong(symbols, other.symbols, done + {s}) == ClashesAmong(symbols, other.symbols, done);
        }
        remaining := remaining - {s};
        done := done + {s};
      }
      ok := !handler.HasErrors();
    }
  }

  /** A Result whose error has already been reported to a handler. */
  datatype Result<T> = Ok(value: T) | Err
}
