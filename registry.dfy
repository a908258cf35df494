/** The process-wide state of the library: the type casting registry seeded
    with the built-in rules, and the default store. `type_cast`,
    `set_type_casting`, `get_type_casting`, `remove_type_casting` and
    `type_exists?` act on the registry. */
module Registry {
  import opened Ruby
  import opened TypeCastings
  import opened Coercions
  import DefaultAttributes

  /** The Kernel conversions and parsers the built-in rules call. Each one
      may fail, which the rule reports as an invalid value. */
  datatype Parsers = Parsers(
    toString: Value -> Option<Value>,      // String(v)
    toInteger: Value -> Option<Value>,     // Integer(v)
    toFloat: Value -> Option<Value>,       // Float(v)
    parseDate: Value -> Option<Value>,     // Date.parse(v)
    parseTime: Value -> Option<Value>,     // Time.parse(v)
    parseDateTime: Value -> Option<Value>, // DateTime.parse(v)
    toBigDecimal: Value -> Option<Value>)  // BigDecimal(v.to_s)

  /** The conversion of the Array rule: `Array(v)`, which never fails. */
  function ArrayConversion(v: Value): Option<Value> {
    Some(Arr(ToArray(v)))
  }

  /** The conversion of the BigDecimal rule: `Float(v)` must succeed before
      `BigDecimal(v.to_s)` is tried. */
  function BigDecimalConversion(p: Parsers): Value -> Option<Value> {
    v => if p.toFloat(v).None? then None else p.toBigDecimal(v)
  }

  /** The registry `type_cast` leaves after storing `rule` under each of
      `refs`, first to last. */
  function StoreEach(table: map<TypeRef, Rule>, refs: seq<TypeRef>, rule: Rule): (r: map<TypeRef, Rule>)
    ensures table.Keys <= r.Keys
    ensures forall i :: 0 <= i < |refs| ==> refs[i] in r && Normalize(refs[i]) in r
    decreases |refs|
  {
    if refs == [] then table
    else Stored(StoreEach(table, refs[..|refs| - 1], rule), refs[|refs| - 1], rule)
  }

  /** `type_cast(*refs)` stores the same rule under every listed reference
      and under its normalised key, and leaves every other key as it was. */
  lemma {:induction false} StoreEachSpec(table: map<TypeRef, Rule>, refs: seq<TypeRef>, rule: Rule)
    ensures forall r :: r in refs ==> r in StoreEach(table, refs, rule) && StoreEach(table, refs, rule)[r] == rule
    ensures forall r :: r in refs ==> Normalize(r) in StoreEach(table, refs, rule) &&
                                      StoreEach(table, refs, rule)[Normalize(r)] == rule
    ensures forall k :: (forall r :: r in refs ==> k != r && k != Normalize(r)) ==>
              (k in StoreEach(table, refs, rule) <==> k in table) &&
              (k in table ==> StoreEach(table, refs, rule)[k] == table[k])
    decreases |refs|
  {
    if refs != [] {
      var p := refs[..|refs| - 1];
      StoreEachSpec(table, p, rule);
      assert forall r :: r in refs <==> r in p || r == refs[|refs| - 1];
    }
  }

  /** The references the library registers as it loads, in source order. */
  const SEEDED_REFS: seq<TypeRef> := [
    Class("String"), Class("Integer"), Class("Float"), Class("Array"),
    Class("Date"), Class("Time"), Class("DateTime"), Class("BigDecimal"),
    Symbol(ARRAY_KEY), Symbol(SET_KEY), Symbol("boolean")]

  /** The rule registered under each of SEEDED_REFS. */
  function SeedRules(p: Parsers): (rules: seq<Rule>)
    ensures |rules| == |SEEDED_REFS|
  {
    [ClassRule("String", p.toString), ClassRule("Integer", p.toInteger),
     ClassRule("Float", p.toFloat), ClassRule("Array", ArrayConversion),
     ClassRule("Date", p.parseDate), ClassRule("Time", p.parseTime),
     ClassRule("DateTime", p.parseDateTime), ClassRule("BigDecimal", BigDecimalConversion(p)),
     CollectionArrayRule, CollectionSetRule, BooleanRule]
  }

  /** The registry after the first `n` built-in registrations. */
  function SeedUpTo(p: Parsers, n: nat): map<TypeRef, Rule>
    requires n <= |SEEDED_REFS|
  {
    if n == 0 then map[]
    else Stored(SeedUpTo(p, n - 1), SEEDED_REFS[n - 1], SeedRules(p)[n - 1])
  }

  /** One more built-in registration on top of the ones before it. */
  lemma SeedStep(p: Parsers, n: nat)
    requires 0 < n <= |SEEDED_REFS|
    ensures SeedUpTo(p, n) == Stored(SeedUpTo(p, n - 1), SEEDED_REFS[n - 1], SeedRules(p)[n - 1])
  {}

  /** The registry as the library loads it. */
  function SeedTable(p: Parsers): map<TypeRef, Rule> {
    SeedUpTo(p, |SEEDED_REFS|)
  }

  /** A registration stays visible under its own reference as long as no
      later registration writes that reference, raw or normalised. */
  lemma {:induction false} SeedUpToKeeps(p: Parsers, n: nat, i: nat)
    requires i < n <= |SEEDED_REFS|
    requires forall j :: i < j < n ==> SEEDED_REFS[j] != SEEDED_REFS[i] && Normalize(SEEDED_REFS[j]) != SEEDED_REFS[i]
    ensures SEEDED_REFS[i] in SeedUpTo(p, n) && SeedUpTo(p, n)[SEEDED_REFS[i]] == SeedRules(p)[i]
  {
    if i < n - 1 {
      SeedUpToKeeps(p, n - 1, i);
    }
  }

  /** Every key of the partial registry is either a seeded reference or its
      normalised key, and is bound to one of the seeded rules. */
  lemma {:induction false} SeedUpToValues(p: Parsers, n: nat, good: Rule -> bool)
    requires n <= |SEEDED_REFS|
    requires forall i :: 0 <= i < n ==> good(SeedRules(p)[i])
    ensures forall k :: k in SeedUpTo(p, n) ==> good(SeedUpTo(p, n)[k])
  {
    if n > 0 {
      SeedUpToValues(p, n - 1, good);
    }
  }

  /** No two seeded references are the same, and no seeded class is a
      symbol. */
  lemma SeededRefsDistinct()
    ensures forall i, j :: 0 <= i < j < |SEEDED_REFS| ==> SEEDED_REFS[i] != SEEDED_REFS[j]
    ensures forall i :: 0 <= i < 8 ==> SEEDED_REFS[i].Class?
    ensures forall i :: 8 <= i < |SEEDED_REFS| ==> SEEDED_REFS[i].Symbol?
  {
  }

  /** The seeded registry binds String, Integer, Float, Array, Date, Time,
      DateTime, BigDecimal, :boolean and both collection keys to their
      built-in rules: a class to the rule `set_type_casting` builds from its
      conversion. */
  lemma SeededRule(p: Parsers, i: nat)
    requires i < |SEEDED_REFS|
    ensures SEEDED_REFS[i] in SeedTable(p) && SeedTable(p)[SEEDED_REFS[i]] == SeedRules(p)[i]
    ensures Fetch(SeedTable(p), AnyRule, SEEDED_REFS[i]) == Some(SeedRules(p)[i])
    ensures Present(SeedTable(p), SEEDED_REFS[i])
  {
    SeededRefsDistinct();
    forall j | i < j < |SEEDED_REFS|
      ensures SEEDED_REFS[j] != SEEDED_REFS[i] && Normalize(SEEDED_REFS[j]) != SEEDED_REFS[i]
    {
      if i >= 8 {
        assert Normalize(SEEDED_REFS[j]) == SEEDED_REFS[j];
      }
    }
    SeedUpToKeeps(p, |SEEDED_REFS|, i);
  }

  /** Integer is seeded with the class rule over `Integer()`. */
  lemma SeededInteger(p: Parsers)
    ensures Present(SeedTable(p), Class("Integer"))
    ensures Fetch(SeedTable(p), AnyRule, Class("Integer")) == Some(ClassRule("Integer", p.toInteger))
  {
    SeededRule(p, 1);
    assert SEEDED_REFS[1] == Class("Integer");
    assert SeedRules(p)[1] == ClassRule("Integer", p.toInteger);
  }

  /** Every rule in the seeded registry maps nil to nil. */
  lemma SeededRulesNilSafe(p: Parsers)
    ensures forall k :: k in SeedTable(p) ==> NilSafe(SeedTable(p)[k])
  {
    BuiltinRulesNilSafe("String", p.toString);
    BuiltinRulesNilSafe("Integer", p.toInteger);
    BuiltinRulesNilSafe("Float", p.toFloat);
    BuiltinRulesNilSafe("Array", ArrayConversion);
    BuiltinRulesNilSafe("Date", p.parseDate);
    BuiltinRulesNilSafe("Time", p.parseTime);
    BuiltinRulesNilSafe("DateTime", p.parseDateTime);
    BuiltinRulesNilSafe("BigDecimal", BigDecimalConversion(p));
    SeedUpToValues(p, |SEEDED_REFS|, NilSafe);
  }

  /** `FastAttributes`' own state. */
  class Runtime {
    const typeCasting: TypeCasting<Rule>
    const defaults: DefaultAttributes.DefaultStore

    ghost predicate Valid()
      reads this, typeCasting, defaults
    {
      && typeCasting.truthy == AnyRule
      && defaults.Valid()
    }

    /** Loading the library: an empty registry and store, then the eleven
        built-in registrations in source order. */
    constructor (p: Parsers)
      ensures Valid()
      ensures fresh(typeCasting) && fresh(defaults)
      ensures typeCasting.table == SeedTable(p)
      ensures defaults.table == map[]
    {
      typeCasting := new TypeCasting(AnyRule);
      defaults := new DefaultAttributes.DefaultStore();
      new;
      SetTypeCasting("String", p.toString);
      SeedStep(p, 1);
      SetTypeCasting("Integer", p.toInteger);
      SeedStep(p, 2);
      SetTypeCasting("Float", p.toFloat);
      SeedStep(p, 3);
      SetTypeCasting("Array", ArrayConversion);
      SeedStep(p, 4);
      SetTypeCasting("Date", p.parseDate);
      SeedStep(p, 5);
      SetTypeCasting("Time", p.parseTime);
      SeedStep(p, 6);
      SetTypeCasting("DateTime", p.parseDateTime);
      SeedStep(p, 7);
      SetTypeCasting("BigDecimal", BigDecimalConversion(p));
      SeedStep(p, 8);
      TypeCast([Symbol(ARRAY_KEY)], CollectionArrayRule);
      SeedStep(p, 9);
      TypeCast([Symbol(SET_KEY)], CollectionSetRule);
      SeedStep(p, 10);
      TypeCast([Symbol("boolean")], BooleanRule);
      SeedStep(p, 11);
    }

    /** `get_type_casting(klass)`. */
    function GetTypeCasting(klass: TypeRef): (r: Option<Rule>)
      reads this, typeCasting, defaults
      requires Valid()
      ensures r == Fetch(typeCasting.table, AnyRule, klass)
      ensures r.Some? <==> Present(typeCasting.table, klass)
    {
      typeCasting.Get(klass)
    }

    /** `type_exists?(klass)`. */
    predicate TypeExists(klass: TypeRef)
      reads this, typeCasting
      ensures TypeExists(klass) <==> Present(typeCasting.table, klass)
    {
      typeCasting.HasKey(klass)
    }

    /** `type_cast(*refs) { ... }`: the rule goes under every listed
        reference, first to last. */
    method TypeCast(refs: seq<TypeRef>, rule: Rule)
      requires Valid()
      modifies typeCasting
      ensures Valid()
      ensures typeCasting.table == StoreEach(old(typeCasting.table), refs, rule)
    {
      var i := 0;
      while i < |refs|
        invariant 0 <= i <= |refs|
        invariant Valid()
        invariant typeCasting.table == StoreEach(old(typeCasting.table), refs[..i], rule)
      {
        typeCasting.Store(refs[i], rule);
        assert refs[..i + 1][..i] == refs[..i];
        i := i + 1;
      }
      assert refs[..i] == refs;
    }

    /** `set_type_casting(klass, conversion)`: afterwards the class is
        known, and looking it up gives the class rule. */
    method SetTypeCasting(klass: string, conversion: Value -> Option<Value>)
      requires Valid()
      modifies typeCasting
      ensures Valid()
      ensures typeCasting.table == Stored(old(typeCasting.table), Class(klass), ClassRule(klass, conversion))
      ensures TypeExists(Class(klass))
      ensures GetTypeCasting(Class(klass)) == Some(ClassRule(klass, conversion))
    {
      TypeCast([Class(klass)], ClassRule(klass, conversion));
      StoreThenFetch(old(typeCasting.table), AnyRule, Class(klass), ClassRule(klass, conversion));
    }

    /** `remove_type_casting(klass)`: afterwards the class is unknown and
        looking it up gives nil. */
    method RemoveTypeCasting(klass: TypeRef)
      requires Valid()
      modifies typeCasting
      ensures Valid()
      ensures typeCasting.table == Deleted(old(typeCasting.table), klass)
      ensures !TypeExists(klass)
      ensures GetTypeCasting(klass) == None
    {
      typeCasting.Delete(klass);
      DeleteThenAbsent(old(typeCasting.table), AnyRule, klass);
    }
  }

  /** Registering a class and removing it again leaves it unknown; the
      keys the two calls do not touch are as before. */
  lemma SetThenRemove(table: map<TypeRef, Rule>, klass: string, f: Value -> Option<Value>)
    ensures !Present(Deleted(Stored(table, Class(klass), ClassRule(klass, f)), Class(klass)), Class(klass))
    ensures forall k :: k != Class(klass) && k != Normalize(Class(klass)) ==>
              (k in Deleted(Stored(table, Class(klass), ClassRule(klass, f)), Class(klass)) <==> k in table)
  {
  }
}
