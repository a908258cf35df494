/** What a casting rule does to the value a setter receives. A rule is a
    list of `from guard, to: body` clauses tried in order and an `otherwise`
    body; the guards are `case value when ...` tests. The built-in rules of
    the library are defined here: the one `set_type_casting` builds for a
    class, the boolean rule, and the two collection rules. */
module Coercions {
  import opened Ruby
  import TypeCastings

  /** The test of a `when` clause: `nil`, a class, or a literal value. */
  datatype Guard = WhenNil | WhenKindOf(klass: string) | WhenEqual(literal: Value)

  /** What a clause evaluates to. */
  datatype Body =
    | Literal(result: Value)                      // a constant such as 'nil' or 'true'
    | Input                                       // '%s': the value itself
    | Convert(conversion: Value -> Option<Value>) // a conversion such as 'Integer(%s)'; None when it raises
    | BooleanCast                                 // the body of the :boolean rule
    | CollectArray                                // the body of the :collection_array rule
    | CollectSet                                  // the body of the :collection_set rule

  datatype Clause = Clause(guard: Guard, body: Body)

  datatype Rule = Rule(clauses: seq<Clause>, otherwise: Body)

  /** `guard === v`. */
  predicate Matches(g: Guard, v: Value) {
    match g
    case WhenNil => v == Nil
    case WhenKindOf(klass) => KindOf(v, klass)
    case WhenEqual(literal) => literal == v
  }

  /** The body of the first clause whose guard matches, or `otherwise`. */
  function Select(clauses: seq<Clause>, otherwise: Body, v: Value): Body
    decreases |clauses|
  {
    if clauses == [] then otherwise
    else if Matches(clauses[0].guard, v) then clauses[0].body
    else Select(clauses[1..], otherwise, v)
  }

  /** Guards are tried top to bottom: the first one that matches decides. */
  lemma {:induction false} FirstMatchWins(clauses: seq<Clause>, otherwise: Body, v: Value, i: nat)
    requires i < |clauses| && Matches(clauses[i].guard, v)
    requires forall j :: 0 <= j < i ==> !Matches(clauses[j].guard, v)
    ensures Select(clauses, otherwise, v) == clauses[i].body
  {
    if i > 0 {
      FirstMatchWins(clauses[1..], otherwise, v, i - 1);
    }
  }

  /** When no guard matches, the `otherwise` body applies. */
  lemma {:induction false} NoMatchOtherwise(clauses: seq<Clause>, otherwise: Body, v: Value)
    requires forall j :: 0 <= j < |clauses| ==> !Matches(clauses[j].guard, v)
    ensures Select(clauses, otherwise, v) == otherwise
    decreases |clauses|
  {
    if clauses != [] {
      NoMatchOtherwise(clauses[1..], otherwise, v);
    }
  }

  const TRUE_VALUES: seq<Value> :=
    [Bool(true), Int(1), Str("1"), Str("t"), Str("T"), Str("true"), Str("TRUE"), Str("on"), Str("ON")]
  const FALSE_VALUES: seq<Value> :=
    [Bool(false), Int(0), Str("0"), Str("f"), Str("F"), Str("false"), Str("FALSE"), Str("off"), Str("OFF")]

  /** No value is both a true literal and a false literal, and nil is neither. */
  lemma BooleanListsDisjoint(v: Value)
    ensures !(v in TRUE_VALUES && v in FALSE_VALUES)
    ensures Nil !in TRUE_VALUES && Nil !in FALSE_VALUES
  {
  }

  /** The :boolean rule: true literals give true, false literals give
      false, nil gives nil, and anything else is an invalid value. */
  function CastBoolean(attribute: string, v: Value): (r: Result<Value>)
    ensures r == Ok(Bool(true)) <==> v in TRUE_VALUES
    ensures r == Ok(Bool(false)) <==> v in FALSE_VALUES
    ensures r == Ok(Nil) <==> v == Nil
    ensures r.Err? <==> v !in TRUE_VALUES && v !in FALSE_VALUES && v != Nil
    ensures r.Err? ==> r.error == InvalidValue(attribute)
  {
    BooleanListsDisjoint(v);
    if v in TRUE_VALUES then Ok(Bool(true))
    else if v in FALSE_VALUES then Ok(Bool(false))
    else if v == Nil then Ok(Nil)
    else Err(InvalidValue(attribute))
  }

  /** The owner class's declared attribute types (`attribute_set`, for the
      collection rules) and the registry (for their element rules), as they
      are when the setter runs. */
  datatype Context = Context(declared: map<string, TypeRef>, rules: map<TypeRef, Rule>)

  /** A rule object is always truthy. */
  predicate AnyRule(r: Rule) {
    true
  }

  /** `Array(type)` for a declared type: the elements of a collection
      instance, any other reference wrapped in a list. */
  function TypeArray(t: TypeRef): seq<TypeRef> {
    match t
    case ArrayRef(es) => es
    case SetRef(es) => es
    case _ => [t]
  }

  /** The element rule of a collection attribute:
      `get_type_casting(Array(attribute_set[attribute][:type])[0])`. None
      where Ruby would call a method on nil: the attribute is not in the
      class's attribute set, the collection names no element type, or the
      element type is not registered. */
  function ElementRule(attribute: string, ctx: Context): (r: Option<Rule>)
    ensures r.Some? <==> attribute in ctx.declared && TypeArray(ctx.declared[attribute]) != [] &&
                         TypeCastings.Present(ctx.rules, TypeArray(ctx.declared[attribute])[0])
    ensures r.Some? ==> exists k :: k in ctx.rules && ctx.rules[k] == r.value
  {
    if attribute !in ctx.declared then None
    else
      var types := TypeArray(ctx.declared[attribute]);
      if types == [] then None
      else
        TypeCastings.FetchIffPresent(ctx.rules, AnyRule, types[0]);
        TypeCastings.Fetch(ctx.rules, AnyRule, types[0])
  }

  /** Runs a body that needs no owner class. A collection body run as an
      element coercion has no owner class to read the element type from,
      so it fails. */
  function RunScalar(body: Body, attribute: string, v: Value): (r: Result<Value>)
    ensures r.Err? ==> r.error == InvalidValue(attribute)
  {
    match body
    case Literal(w) => Ok(w)
    case Input => Ok(v)
    case Convert(f) => (match f(v) case Some(w) => Ok(w) case None => Err(InvalidValue(attribute)))
    case BooleanCast => CastBoolean(attribute, v)
    case CollectArray => Err(InvalidValue(attribute))
    case CollectSet => Err(InvalidValue(attribute))
  }

  /** The lambda `compile_lambda(attribute)` builds for an element rule. */
  function CoerceElement(rule: Rule, attribute: string, v: Value): (r: Result<Value>)
    ensures r.Err? ==> r.error == InvalidValue(attribute)
  {
    RunScalar(Select(rule.clauses, rule.otherwise, v), attribute, v)
  }

  /** `items.map { |item| coercion.call(item) }`: stops at the first item
      that fails. */
  function CoerceEach(rule: Rule, attribute: string, items: seq<Value>): (r: Result<seq<Value>>)
    ensures r.Ok? <==> forall i :: 0 <= i < |items| ==> CoerceElement(rule, attribute, items[i]).Ok?
    ensures r.Ok? ==> |r.value| == |items|
    ensures r.Ok? ==> forall i :: 0 <= i < |items| ==> r.value[i] == CoerceElement(rule, attribute, items[i]).value
    ensures r.Err? ==> r.error == InvalidValue(attribute)
    decreases |items|
  {
    if items == [] then Ok([])
    else
      match CoerceElement(rule, attribute, items[0])
      case Err(e) => Err(e)
      case Ok(x) =>
        match CoerceEach(rule, attribute, items[1..])
        case Err(e) => Err(e)
        case Ok(xs) => Ok([x] + xs)
  }

  /** The shared part of the two collection rules: look up the element
      rule, then coerce every item of `Array(value)`. */
  function Collect(attribute: string, ctx: Context, v: Value): Result<seq<Value>> {
    match ElementRule(attribute, ctx)
    case None => Err(InvalidValue(attribute))
    case Some(er) => CoerceEach(er, attribute, ToArray(v))
  }

  /** The setter body a rule compiles to, applied to `v`. A setter never
      raises anything but an invalid value naming its own attribute; a
      collection body gives a list as long as `Array(v)`, or a Set no
      larger than it. */
  function Coerce(rule: Rule, attribute: string, ctx: Context, v: Value): (r: Result<Value>)
    ensures r.Err? ==> r.error == InvalidValue(attribute)
    ensures r.Ok? && Select(rule.clauses, rule.otherwise, v).CollectArray? ==>
              r.value.Arr? && |r.value.items| == |ToArray(v)|
    ensures r.Ok? && Select(rule.clauses, rule.otherwise, v).CollectSet? ==>
              r.value.SetOf? && |r.value.members| <= |ToArray(v)|
  {
    match Select(rule.clauses, rule.otherwise, v)
    case CollectArray =>
      (match Collect(attribute, ctx, v) case Ok(xs) => Ok(Arr(xs)) case Err(e) => Err(e))
    case CollectSet =>
      (match Collect(attribute, ctx, v) case Ok(xs) => Ok(SetOf(Dedup(xs))) case Err(e) => Err(e))
    case body => RunScalar(body, attribute, v)
  }

  /** The rule `set_type_casting(klass, conversion)` registers. */
  function ClassRule(klass: string, conversion: Value -> Option<Value>): (r: Rule)
    ensures forall v :: Select(r.clauses, r.otherwise, v) ==
              if v == Nil then Literal(Nil) else if KindOf(v, klass) then Input else Convert(conversion)
  {
    SelectTwo(Clause(WhenNil, Literal(Nil)), Clause(WhenKindOf(klass), Input), Convert(conversion));
    Rule([Clause(WhenNil, Literal(Nil)), Clause(WhenKindOf(klass), Input)], Convert(conversion))
  }

  /** A rule with two guards: the first that matches decides. */
  lemma SelectTwo(first: Clause, second: Clause, otherwise: Body)
    ensures forall v :: Select([first, second], otherwise, v) ==
              if Matches(first.guard, v) then first.body
              else if Matches(second.guard, v) then second.body
              else otherwise
  {
    forall v
      ensures Select([first, second], otherwise, v) ==
                if Matches(first.guard, v) then first.body
                else if Matches(second.guard, v) then second.body
                else otherwise
    {
      assert [first, second][1..] == [second];
      assert [second][1..] == [];
      assert Select([second], otherwise, v) == if Matches(second.guard, v) then second.body else Select([], otherwise, v);
    }
  }

  const BooleanRule: Rule := Rule([], BooleanCast)
  const CollectionArrayRule: Rule := Rule([Clause(WhenNil, Literal(Nil))], CollectArray)
  const CollectionSetRule: Rule := Rule([Clause(WhenNil, Literal(Nil))], CollectSet)

  /** A class rule maps nil to nil, passes a value already of the class
      through unchanged, and sends anything else through the conversion,
      whose failure is an invalid value. */
  lemma ClassRuleCoercion(klass: string, f: Value -> Option<Value>, attribute: string, ctx: Context, v: Value)
    ensures v == Nil ==> Coerce(ClassRule(klass, f), attribute, ctx, v) == Ok(Nil)
    ensures v != Nil && KindOf(v, klass) ==> Coerce(ClassRule(klass, f), attribute, ctx, v) == Ok(v)
    ensures v != Nil && !KindOf(v, klass) ==>
              Coerce(ClassRule(klass, f), attribute, ctx, v) ==
                (if f(v).Some? then Ok(f(v).value) else Err(InvalidValue(attribute)))
  {
    var rule := ClassRule(klass, f);
    if v == Nil {
      FirstMatchWins(rule.clauses, rule.otherwise, v, 0);
    } else if KindOf(v, klass) {
      FirstMatchWins(rule.clauses, rule.otherwise, v, 1);
    } else {
      NoMatchOtherwise(rule.clauses, rule.otherwise, v);
    }
  }

  /** When the conversion only ever produces instances of the class,
      coercing a coerced value changes nothing. */
  lemma ClassRuleIdempotent(klass: string, f: Value -> Option<Value>, attribute: string, ctx: Context, v: Value)
    requires forall x :: f(x).Some? ==> KindOf(f(x).value, klass)
    requires Coerce(ClassRule(klass, f), attribute, ctx, v).Ok?
    ensures Coerce(ClassRule(klass, f), attribute, ctx, Coerce(ClassRule(klass, f), attribute, ctx, v).value)
            == Coerce(ClassRule(klass, f), attribute, ctx, v)
  {
    var w := Coerce(ClassRule(klass, f), attribute, ctx, v).value;
    ClassRuleCoercion(klass, f, attribute, ctx, v);
    ClassRuleCoercion(klass, f, attribute, ctx, w);
  }

  /** A rule whose bodies are none of the collection bodies coerces an
      element exactly as a setter coerces a value. */
  lemma ScalarRuleEverywhere(rule: Rule, attribute: string, ctx: Context, v: Value)
    requires !rule.otherwise.CollectArray? && !rule.otherwise.CollectSet?
    requires forall j :: 0 <= j < |rule.clauses| ==> !rule.clauses[j].body.CollectArray? && !rule.clauses[j].body.CollectSet?
    ensures Coerce(rule, attribute, ctx, v) == CoerceElement(rule, attribute, v)
  {
    SelectFrom(rule.clauses, rule.otherwise, v);
  }

  /** The selected body is one of the clause bodies or `otherwise`. */
  lemma {:induction false} SelectFrom(clauses: seq<Clause>, otherwise: Body, v: Value)
    ensures Select(clauses, otherwise, v) == otherwise ||
            exists j :: 0 <= j < |clauses| && Select(clauses, otherwise, v) == clauses[j].body
    decreases |clauses|
  {
    if clauses != [] && !Matches(clauses[0].guard, v) {
      SelectFrom(clauses[1..], otherwise, v);
      if Select(clauses, otherwise, v) != otherwise {
        var j :| 0 <= j < |clauses[1..]| && Select(clauses, otherwise, v) == clauses[1..][j].body;
        assert clauses[1..][j] == clauses[j + 1];
      }
    } else if clauses != [] {
      assert Select(clauses, otherwise, v) == clauses[0].body;
    }
  }

  /** The :boolean rule is the boolean cast, with no guard in front of it. */
  lemma BooleanRuleCoercion(attribute: string, ctx: Context, v: Value)
    ensures Coerce(BooleanRule, attribute, ctx, v) == CastBoolean(attribute, v)
    ensures Coerce(BooleanRule, attribute, ctx, v).Ok? ==>
              Coerce(BooleanRule, attribute, ctx, Coerce(BooleanRule, attribute, ctx, v).value)
              == Coerce(BooleanRule, attribute, ctx, v)
  {
    BooleanListsDisjoint(v);
  }

  /** The :collection_array rule: nil gives nil; otherwise the result is a
      list as long as `Array(value)` whose i-th element is the element
      coercion of its i-th item, and any failure is an invalid value naming
      the collection attribute. */
  lemma CollectionArrayCoercion(attribute: string, ctx: Context, v: Value)
    ensures v == Nil ==> Coerce(CollectionArrayRule, attribute, ctx, v) == Ok(Nil)
    ensures v != Nil && ElementRule(attribute, ctx).None? ==>
              Coerce(CollectionArrayRule, attribute, ctx, v) == Err(InvalidValue(attribute))
    ensures v != Nil && ElementRule(attribute, ctx).Some? ==>
              var er, items, r := ElementRule(attribute, ctx).value, ToArray(v), Coerce(CollectionArrayRule, attribute, ctx, v);
              && (r.Ok? <==> forall i :: 0 <= i < |items| ==> CoerceElement(er, attribute, items[i]).Ok?)
              && (r.Ok? ==> r.value.Arr? && |r.value.items| == |items|)
              && (r.Ok? ==> forall i :: 0 <= i < |items| ==> r.value.items[i] == CoerceElement(er, attribute, items[i]).value)
              && (r.Err? ==> r.error == InvalidValue(attribute))
  {
    var rule := CollectionArrayRule;
    if v == Nil {
      FirstMatchWins(rule.clauses, rule.otherwise, v, 0);
    } else {
      NoMatchOtherwise(rule.clauses, rule.otherwise, v);
    }
  }

  /** The :collection_set rule: nil gives nil; otherwise the items are
      coerced as for a list and collected into a Set, which holds exactly
      the coerced items, once each, and so is no larger than the input. */
  lemma CollectionSetCoercion(attribute: string, ctx: Context, v: Value)
    ensures v == Nil ==> Coerce(CollectionSetRule, attribute, ctx, v) == Ok(Nil)
    ensures v != Nil && ElementRule(attribute, ctx).None? ==>
              Coerce(CollectionSetRule, attribute, ctx, v) == Err(InvalidValue(attribute))
    ensures v != Nil && ElementRule(attribute, ctx).Some? ==>
              var er, items, r := ElementRule(attribute, ctx).value, ToArray(v), Coerce(CollectionSetRule, attribute, ctx, v);
              && (r.Ok? <==> forall i :: 0 <= i < |items| ==> CoerceElement(er, attribute, items[i]).Ok?)
              && (r.Ok? ==> r.value.SetOf? && |r.value.members| <= |items| && Distinct(r.value.members))
              && (r.Ok? ==> forall x :: x in r.value.members <==>
                   exists i :: 0 <= i < |items| && x == CoerceElement(er, attribute, items[i]).value)
              && (r.Err? ==> r.error == InvalidValue(attribute))
  {
    var rule := CollectionSetRule;
    if v == Nil {
      FirstMatchWins(rule.clauses, rule.otherwise, v, 0);
    } else {
      NoMatchOtherwise(rule.clauses, rule.otherwise, v);
      var c := Collect(attribute, ctx, v);
      if c.Ok? {
        var items := ToArray(v);
        var er := ElementRule(attribute, ctx).value;
        forall x ensures x in c.value <==> exists i :: 0 <= i < |items| && x == CoerceElement(er, attribute, items[i]).value {
          if x in c.value {
            var i :| 0 <= i < |c.value| && c.value[i] == x;
            assert x == CoerceElement(er, attribute, items[i]).value;
          }
        }
      }
    }
  }

  /** Assigning '1' to an `Array[Integer]` attribute wraps it first: the
      result is [1] when Integer('1') is 1. */
  lemma WrapsScalarInList(attribute: string, ctx: Context, toInteger: Value -> Option<Value>)
    requires attribute in ctx.declared && ctx.declared[attribute] == ArrayRef([Class("Integer")])
    requires Class("Integer") in ctx.rules && ctx.rules[Class("Integer")] == ClassRule("Integer", toInteger)
    requires toInteger(Str("1")) == Some(Int(1))
    ensures Coerce(CollectionArrayRule, attribute, ctx, Str("1")) == Ok(Arr([Int(1)]))
  {
    CollectionArrayCoercion(attribute, ctx, Str("1"));
    var er := ClassRule("Integer", toInteger);
    assert ElementRule(attribute, ctx) == Some(er);
    ScalarRuleEverywhere(er, attribute, ctx, Str("1"));
    ClassRuleCoercion("Integer", toInteger, attribute, ctx, Str("1"));
    assert CoerceElement(er, attribute, Str("1")) == Ok(Int(1));
    assert ToArray(Str("1")) == [Str("1")];
    var r := Coerce(CollectionArrayRule, attribute, ctx, Str("1"));
    assert r.Ok? && |r.value.items| == 1 && r.value.items[0] == Int(1);
    assert r.value.items == [Int(1)];
  }

  /** The rule maps nil to nil, whatever the attribute and context. */
  ghost predicate NilSafe(rule: Rule) {
    forall attribute, ctx :: Coerce(rule, attribute, ctx, Nil) == Ok(Nil)
  }

  /** Every built-in rule maps nil to nil. */
  lemma BuiltinRulesNilSafe(klass: string, f: Value -> Option<Value>)
    ensures NilSafe(ClassRule(klass, f))
    ensures NilSafe(BooleanRule)
    ensures NilSafe(CollectionArrayRule)
    ensures NilSafe(CollectionSetRule)
  {
    forall attribute: string, ctx: Context
      ensures Coerce(ClassRule(klass, f), attribute, ctx, Nil) == Ok(Nil)
      ensures Coerce(BooleanRule, attribute, ctx, Nil) == Ok(Nil)
      ensures Coerce(CollectionArrayRule, attribute, ctx, Nil) == Ok(Nil)
      ensures Coerce(CollectionSetRule, attribute, ctx, Nil) == Ok(Nil)
    {
      ClassRuleCoercion(klass, f, attribute, ctx, Nil);
      BooleanRuleCoercion(attribute, ctx, Nil);
      CollectionArrayCoercion(attribute, ctx, Nil);
      CollectionSetCoercion(attribute, ctx, Nil);
    }
  }
}
