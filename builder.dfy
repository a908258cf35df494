/** Attribute declarations and the methods they generate. A `Builder`
    collects declarations into a name -> {type, options} table and then
    compiles them: getters, setters, registered defaults and, when the
    options ask for them, a constructor and an `attributes` reader. The
    generated methods are data (`Methods`) that the owning class includes;
    an `Instance` of the class runs them against its instance variables. */
module Builders {
  import opened Ruby
  import opened Hashes
  import opened TypeCastings
  import opened Coercions
  import opened Registry
  import DefaultAttributes

  /** The options of one declaration. Only `:default` is read; an absent
      key reads as nil. */
  datatype Options = Options(default: Value)

  /** `{}`. */
  const NO_OPTIONS := Options(Nil)

  /** One argument of `attribute(*args)`: a symbol, string or class, or an
      options Hash. */
  datatype Arg = Ref(ref: TypeRef) | Opts(options: Options)

  /** A declaration once its arguments are sorted out. */
  datatype Declaration = Declaration(names: seq<string>, ref: TypeRef, options: Options)

  /** The entry every declared name maps to: `{type: ..., options: ...}`. */
  datatype AttributeData = AttributeData(ref: TypeRef, options: Options)

  /** An argument usable as an attribute name: it answers `to_sym`. */
  predicate IsName(a: Arg) {
    a.Ref? && (a.ref.Symbol? || a.ref.Text?)
  }

  function NameOf(a: Arg): string
    requires IsName(a)
  {
    if a.ref.Symbol? then a.ref.name else a.ref.text
  }

  /** Every argument that ends up as a name answers `to_sym`, and the
      argument that ends up as the type is not a Hash. */
  predicate NamesOk(args: seq<Arg>) {
    |args| >= 2 ==>
      var last, before := args[|args| - 1], args[|args| - 2];
      && (forall i :: 0 <= i < |args| - 2 ==> IsName(args[i]))
      && (last.Opts? ==> before.Ref?)
      && (!last.Opts? ==> IsName(before))
  }

  function Names(args: seq<Arg>): (names: seq<string>)
    requires forall i :: 0 <= i < |args| ==> IsName(args[i])
    ensures |names| == |args|
  {
    seq(|args|, i requires 0 <= i < |args| => NameOf(args[i]))
  }

  /** The argument shuffling at the top of `Builder#attribute`: the last two
      arguments are the type and the options; when the last one is not a
      Hash it is the type, the one before it is one more name, and the
      options are `{}`. Fewer than two arguments is an ArgumentError. */
  function Shuffle(args: seq<Arg>): (r: Result<Declaration>)
    requires NamesOk(args)
    ensures r.Ok? <==> |args| >= 2
    ensures r.Ok? && args[|args| - 1].Opts? ==>
              && r.value.names == Names(args[..|args| - 2])
              && r.value.ref == args[|args| - 2].ref
              && r.value.options == args[|args| - 1].options
    ensures r.Ok? && !args[|args| - 1].Opts? ==>
              && r.value.names == Names(args[..|args| - 1])
              && r.value.ref == args[|args| - 1].ref
              && r.value.options == NO_OPTIONS
  {
    if |args| < 2 then Err(ArgumentCount)
    else
      var last := args[|args| - 1];
      if last.Opts? then
        Ok(Declaration(Names(args[..|args| - 2]), args[|args| - 2].ref, last.options))
      else
        Ok(Declaration(Names(args[..|args| - 1]), last.ref, NO_OPTIONS))
  }

  /** The arguments of a declaration written out in full:
      `attribute :a, :b, Type, options`. */
  function FullArgs(d: Declaration): seq<Arg> {
    seq(|d.names|, i requires 0 <= i < |d.names| => Ref(Symbol(d.names[i]))) + [Ref(d.ref), Opts(d.options)]
  }

  /** The arguments of a declaration without options: `attribute :a, :b, Type`. */
  function ShortArgs(d: Declaration): seq<Arg> {
    seq(|d.names|, i requires 0 <= i < |d.names| => Ref(Symbol(d.names[i]))) + [Ref(d.ref)]
  }

  /** Shuffling recovers the declaration from either way of writing it;
      without options at least one name is needed, since the shuffled-in
      name is the one before the type. */
  lemma ShuffleRoundTrip(d: Declaration)
    ensures NamesOk(FullArgs(d)) && Shuffle(FullArgs(d)) == Ok(d)
    ensures |d.names| > 0 && d.options == NO_OPTIONS ==> NamesOk(ShortArgs(d)) && Shuffle(ShortArgs(d)) == Ok(d)
  {
    var full := FullArgs(d);
    assert full[..|full| - 2] == seq(|d.names|, i requires 0 <= i < |d.names| => Ref(Symbol(d.names[i])));
    assert Names(full[..|full| - 2]) == d.names;
    if |d.names| > 0 && d.options == NO_OPTIONS {
      var short := ShortArgs(d);
      assert short[..|short| - 1] == seq(|d.names|, i requires 0 <= i < |d.names| => Ref(Symbol(d.names[i])));
      assert Names(short[..|short| - 1]) == d.names;
    }
  }

  /** `attribute :name, String` declares :name of type String with no options. */
  lemma ShuffleTwoArguments(name: string, t: TypeRef)
    ensures NamesOk([Ref(Symbol(name)), Ref(t)])
    ensures Shuffle([Ref(Symbol(name)), Ref(t)]) == Ok(Declaration([name], t, NO_OPTIONS))
  {
    var args := [Ref(Symbol(name)), Ref(t)];
    assert args[..1] == [Ref(Symbol(name))];
    assert Names(args[..1]) == [name];
  }

  /** The options a Builder is created with: `initialize:` and `attributes:`. */
  datatype BuilderOptions = BuilderOptions(initialize: Value, attributes: Value)

  const NO_BUILDER_OPTIONS := BuilderOptions(Nil, Nil)

  /** What the generated constructor iterates over: the supplied mapping
      alone, or the class's defaults merged with it. */
  datatype Initializer = AppliesSupplied | MergesDefaults

  /** The generated `attributes` method: the declared names in order, read
      through the getters or straight from the instance variables. */
  datatype Reader = Reader(names: seq<string>, viaGetters: bool)

  /** The module one `compile!` includes into the class. */
  datatype Methods = Methods(
    getters: set<string>,
    setters: map<string, Rule>,
    initializer: Option<Initializer>,
    reader: Option<Reader>)

  /** The setters visible on the class: a later included module shadows an
      earlier one. */
  function Setters(ms: seq<Methods>): map<string, Rule>
    decreases |ms|
  {
    if ms == [] then map[] else Setters(ms[..|ms| - 1]) + ms[|ms| - 1].setters
  }

  /** The getters visible on the class. */
  function Getters(ms: seq<Methods>): set<string>
    decreases |ms|
  {
    if ms == [] then {} else Getters(ms[..|ms| - 1]) + ms[|ms| - 1].getters
  }

  /** The generated constructor visible on the class, if any. */
  function InitializerOf(ms: seq<Methods>): Option<Initializer>
    decreases |ms|
  {
    if ms == [] then None
    else if ms[|ms| - 1].initializer.Some? then ms[|ms| - 1].initializer
    else InitializerOf(ms[..|ms| - 1])
  }

  /** The generated `attributes` method visible on the class, if any. */
  function ReaderOf(ms: seq<Methods>): Option<Reader>
    decreases |ms|
  {
    if ms == [] then None
    else if ms[|ms| - 1].reader.Some? then ms[|ms| - 1].reader
    else ReaderOf(ms[..|ms| - 1])
  }

  /** Including a module: its methods win over those of every earlier
      module, and the earlier ones stay visible where it defines nothing. */
  lemma IncludeShadows(ms: seq<Methods>, m: Methods)
    ensures Setters(ms + [m]) == Setters(ms) + m.setters
    ensures Getters(ms + [m]) == Getters(ms) + m.getters
    ensures InitializerOf(ms + [m]) == (if m.initializer.Some? then m.initializer else InitializerOf(ms))
    ensures ReaderOf(ms + [m]) == (if m.reader.Some? then m.reader else ReaderOf(ms))
  {
    assert (ms + [m])[..|ms|] == ms;
  }

  /** `set_defaults` over the attributes `keys`: each one whose `:default`
      option is truthy is registered, first to last. */
  function RegisterDefaults(h: Hash<Value>, keys: seq<string>, table: map<string, AttributeData>): (r: Hash<Value>)
    requires Hashes.Valid(h)
    requires forall k :: k in keys ==> k in table
    ensures Hashes.Valid(r)
    decreases |keys|
  {
    if keys == [] then h
    else
      var r := RegisterDefaults(h, keys[..|keys| - 1], table);
      var a := keys[|keys| - 1];
      if Truthy(table[a].options.default) then Put(r, a, table[a].options.default) else r
  }

  /** A default is registered exactly for the attributes whose `:default`
      is truthy, with that value; every other entry stays as it was, and
      the registered attributes keep their order. */
  lemma {:induction false} RegisterDefaultsSpec(h: Hash<Value>, keys: seq<string>, table: map<string, AttributeData>)
    requires Hashes.Valid(h)
    requires forall k :: k in keys ==> k in table
    ensures forall k :: k in keys && Truthy(table[k].options.default) ==>
              k in RegisterDefaults(h, keys, table).vals &&
              RegisterDefaults(h, keys, table).vals[k] == table[k].options.default
    ensures forall k :: !(k in keys && Truthy(table[k].options.default)) ==>
              (k in RegisterDefaults(h, keys, table).vals <==> k in h.vals) &&
              (k in h.vals ==> RegisterDefaults(h, keys, table).vals[k] == h.vals[k])
    ensures h.keys <= RegisterDefaults(h, keys, table).keys
    decreases |keys|
  {
    if keys != [] {
      var p := keys[..|keys| - 1];
      RegisterDefaultsSpec(h, p, table);
      assert forall k :: k in keys <==> k in p || k == keys[|keys| - 1];
    }
  }

  /** The table a sequence of declarations builds, first to last. */
  function DeclareAll(h: Hash<AttributeData>, ds: seq<Declaration>): (r: Hash<AttributeData>)
    requires Hashes.Valid(h)
    ensures Hashes.Valid(r)
    decreases |ds|
  {
    if ds == [] then h
    else
      var d := ds[|ds| - 1];
      AssignSpec(DeclareAll(h, ds[..|ds| - 1]), d.names, AttributeData(d.ref, d.options));
      Assign(DeclareAll(h, ds[..|ds| - 1]), d.names, AttributeData(d.ref, d.options))
  }

  /** Every name of a declaration maps to that declaration's entry unless a
      later declaration names it again. */
  lemma {:induction false} DeclareAllLatest(h: Hash<AttributeData>, ds: seq<Declaration>)
    requires Hashes.Valid(h)
    ensures forall i, k :: (0 <= i < |ds| && k in ds[i].names && (forall j :: i < j < |ds| ==> k !in ds[j].names)) ==>
              k in DeclareAll(h, ds).vals && DeclareAll(h, ds).vals[k] == AttributeData(ds[i].ref, ds[i].options)
    decreases |ds|
  {
    if ds != [] {
      var p := ds[..|ds| - 1];
      var d := ds[|ds| - 1];
      var before := DeclareAll(h, p);
      DeclareAllLatest(h, p);
      AssignSpec(before, d.names, AttributeData(d.ref, d.options));
      assert DeclareAll(h, ds) == Assign(before, d.names, AttributeData(d.ref, d.options));
      forall i, k | 0 <= i < |ds| && k in ds[i].names && (forall j :: i < j < |ds| ==> k !in ds[j].names)
        ensures k in DeclareAll(h, ds).vals && DeclareAll(h, ds).vals[k] == AttributeData(ds[i].ref, ds[i].options)
      {
        if i < |ds| - 1 {
          assert k !in d.names;
          assert p[i] == ds[i];
          assert forall j :: i < j < |p| ==> p[j] == ds[j];
          assert k in before.vals && before.vals[k] == AttributeData(ds[i].ref, ds[i].options);
        }
      }
    }
  }

  /** A name no declaration mentions keeps its old entry, or stays absent. */
  lemma {:induction false} DeclareAllUntouched(h: Hash<AttributeData>, ds: seq<Declaration>)
    requires Hashes.Valid(h)
    ensures forall k :: (forall i :: 0 <= i < |ds| ==> k !in ds[i].names) ==>
              (k in DeclareAll(h, ds).vals <==> k in h.vals) &&
              (k in h.vals ==> DeclareAll(h, ds).vals[k] == h.vals[k])
    decreases |ds|
  {
    if ds != [] {
      var p := ds[..|ds| - 1];
      var d := ds[|ds| - 1];
      var before := DeclareAll(h, p);
      DeclareAllUntouched(h, p);
      AssignSpec(before, d.names, AttributeData(d.ref, d.options));
      assert DeclareAll(h, ds) == Assign(before, d.names, AttributeData(d.ref, d.options));
      forall k | (forall i :: 0 <= i < |ds| ==> k !in ds[i].names)
        ensures (k in DeclareAll(h, ds).vals <==> k in h.vals) &&
                (k in h.vals ==> DeclareAll(h, ds).vals[k] == h.vals[k])
      {
        assert forall i :: 0 <= i < |p| ==> p[i] == ds[i];
        assert k !in d.names;
      }
    }
  }

  /** One setter call: the coercion of `v` is stored, or the setter raises
      and nothing is stored. A name without a setter is a NoMethodError. */
  function SetField(setters: map<string, Rule>, ctx: Context, fields: map<string, Value>, name: string, v: Value)
    : (r: Result<map<string, Value>>)
    ensures r.Ok? <==> name in setters && Coerce(setters[name], name, ctx, v).Ok?
    ensures r.Ok? ==> r.value == fields[name := Coerce(setters[name], name, ctx, v).value]
    ensures name !in setters ==> r == Err(NoSetter(name))
    ensures name in setters && r.Err? ==> r.error == InvalidValue(name)
  {
    if name !in setters then Err(NoSetter(name))
    else
      match Coerce(setters[name], name, ctx, v)
      case Ok(w) => Ok(fields[name := w])
      case Err(e) => Err(e)
  }

  /** The instance variables after a run of setter calls, and the error
      that stopped the run, if any. */
  datatype Applied = Applied(fields: map<string, Value>, error: Option<Error>)

  /** `pairs.each { |name, value| public_send("#{name}=", value) }`: the
      first setter that raises ends the run. */
  function Run(setters: map<string, Rule>, ctx: Context, fields: map<string, Value>, keys: seq<string>, vals: map<string, Value>)
    : Applied
    requires forall k :: k in keys ==> k in vals
    decreases |keys|
  {
    if keys == [] then Applied(fields, None)
    else
      match SetField(setters, ctx, fields, keys[0], vals[keys[0]])
      case Err(e) => Applied(fields, Some(e))
      case Ok(f) => Run(setters, ctx, f, keys[1..], vals)
  }

  /** A run succeeds exactly when every name has a setter that accepts its
      value; a failed run names the attribute it stopped at. */
  lemma {:induction false} RunSucceeds(setters: map<string, Rule>, ctx: Context, fields: map<string, Value>,
                                       keys: seq<string>, vals: map<string, Value>)
    requires forall k :: k in keys ==> k in vals
    ensures Run(setters, ctx, fields, keys, vals).error.None? <==>
              forall k :: k in keys ==> k in setters && Coerce(setters[k], k, ctx, vals[k]).Ok?
    ensures Run(setters, ctx, fields, keys, vals).error.Some? ==>
              exists k :: k in keys &&
                Run(setters, ctx, fields, keys, vals).error.value in {NoSetter(k), InvalidValue(k)}
    decreases |keys|
  {
    if keys != [] {
      var k0 := keys[0];
      var r := SetField(setters, ctx, fields, k0, vals[k0]);
      assert forall k :: k in keys <==> k == k0 || k in keys[1..];
      if r.Ok? {
        RunSucceeds(setters, ctx, r.value, keys[1..], vals);
      }
    }
  }

  /** After a successful run over distinct names, each of them holds the
      coercion of its value, and every other instance variable is as it
      was. */
  lemma {:induction false} RunAssignsEach(setters: map<string, Rule>, ctx: Context, fields: map<string, Value>,
                                          keys: seq<string>, vals: map<string, Value>)
    requires forall k :: k in keys ==> k in vals
    requires Distinct(keys)
    requires Run(setters, ctx, fields, keys, vals).error.None?
    ensures forall k :: k in keys ==>
              && k in setters && Coerce(setters[k], k, ctx, vals[k]).Ok?
              && k in Run(setters, ctx, fields, keys, vals).fields
              && Run(setters, ctx, fields, keys, vals).fields[k] == Coerce(setters[k], k, ctx, vals[k]).value
    ensures forall k :: k !in keys ==>
              (k in Run(setters, ctx, fields, keys, vals).fields <==> k in fields) &&
              (k in fields ==> Run(setters, ctx, fields, keys, vals).fields[k] == fields[k])
    decreases |keys|
  {
    if keys != [] {
      var k0 := keys[0];
      var f := SetField(setters, ctx, fields, k0, vals[k0]).value;
      assert Distinct(keys[1..]);
      assert k0 !in keys[1..];
      RunAssignsEach(setters, ctx, f, keys[1..], vals);
      assert forall k :: k in keys <==> k == k0 || k in keys[1..];
    }
  }

  /** The values a defaults read hands out. */
  function Values(h: Hash<DefaultAttributes.Provided>): (r: Hash<Value>)
    requires Hashes.Valid(h)
    ensures Hashes.Valid(r) && r.keys == h.keys && r.vals.Keys == h.vals.Keys
    ensures forall k :: k in r.vals ==> r.vals[k] == h.vals[k].value
  {
    Hash(h.keys, map k | k in h.vals :: h.vals[k].value)
  }

  /** What the generated constructor iterates over: `attributes`, or
      `default_attributes(self.class).merge(attributes)`. */
  function Pairs(init: Initializer, defaults: Hash<Value>, supplied: Hash<Value>, call: Value -> Value): (r: Hash<Value>)
    requires Hashes.Valid(defaults) && Hashes.Valid(supplied)
    ensures Hashes.Valid(r)
  {
    match init
    case AppliesSupplied => supplied
    case MergesDefaults => Merge(Values(DefaultAttributes.ProvideAll(defaults, call)), supplied)
  }

  /** With defaults merged in, a supplied value wins over the default for
      its name; a name that is only defaulted gets the default as a read
      hands it out (the provider's result, a clone, or the value itself);
      the defaulted names come first, in registration order. */
  lemma SuppliedWins(defaults: Hash<Value>, supplied: Hash<Value>, call: Value -> Value)
    requires Hashes.Valid(defaults) && Hashes.Valid(supplied)
    ensures var r := Pairs(MergesDefaults, defaults, supplied, call);
            && r.vals.Keys == defaults.vals.Keys + supplied.vals.Keys
            && (forall k :: k in supplied.vals ==> r.vals[k] == supplied.vals[k])
            && (forall k :: k in defaults.vals && k !in supplied.vals ==>
                  r.vals[k] == DefaultAttributes.Provide(defaults.vals[k], call).value)
            && defaults.keys <= r.keys
    ensures Pairs(AppliesSupplied, defaults, supplied, call) == supplied
  {
    DefaultAttributes.ReadNeverAliases(defaults, call);
  }

  /** The error `attribute(*args)` raises, if any: an ArgumentError for too
      few arguments, or UnsupportedTypeError for an unregistered type. */
  function DeclarationError(rt: Runtime, args: seq<Arg>): (r: Option<Error>)
    reads rt, rt.typeCasting
    requires NamesOk(args)
    ensures r.None? <==> Shuffle(args).Ok? && rt.TypeExists(Shuffle(args).value.ref)
    ensures Shuffle(args).Ok? && r.Some? ==> r == Some(UnsupportedType(Shuffle(args).value.ref))
  {
    match Shuffle(args)
    case Err(e) => Some(e)
    case Ok(d) => if rt.TypeExists(d.ref) then None else Some(UnsupportedType(d.ref))
  }

  /** The error a block of declarations raises: that of the first
      declaration that fails. */
  function FirstError(rt: Runtime, decls: seq<seq<Arg>>): (r: Option<Error>)
    reads rt, rt.typeCasting
    requires forall i :: 0 <= i < |decls| ==> NamesOk(decls[i])
    ensures r.None? <==> forall i :: 0 <= i < |decls| ==> DeclarationError(rt, decls[i]).None?
    ensures r.Some? ==> exists i :: 0 <= i < |decls| && r == DeclarationError(rt, decls[i]) &&
                                    forall j :: 0 <= j < i ==> DeclarationError(rt, decls[j]).None?
    decreases |decls|
  {
    if decls == [] then None
    else if DeclarationError(rt, decls[0]).Some? then DeclarationError(rt, decls[0])
    else
      var r := FirstError(rt, decls[1..]);
      assert forall i :: 0 < i < |decls| ==> decls[1..][i - 1] == decls[i];
      if r.Some? then
        var i :| 0 <= i < |decls[1..]| && r == DeclarationError(rt, decls[1..][i]) &&
                 forall j :: 0 <= j < i ==> DeclarationError(rt, decls[1..][j]).None?;
        assert r == DeclarationError(rt, decls[i + 1]);
        r
      else r
  }

  /** The module one `compile!` of the table `table` includes into the class
      `klass`: a getter and a setter for every declared name, each setter
      running the rule the registry holds for the name's type; the
      constructor only when `initialize:` is truthy, merging defaults
      exactly when the class has defaults by then; the `attributes` reader
      only when `attributes:` is truthy, listing the names in declaration
      order and reading through the getters exactly in mode :accessors. */
  ghost predicate Compiled(m: Methods, table: Hash<AttributeData>, options: BuilderOptions, rt: Runtime, klass: string)
    reads rt, rt.typeCasting, rt.defaults
    requires rt.Valid()
  {
    && m.getters == table.vals.Keys
    && m.setters.Keys == table.vals.Keys
    && (forall a :: a in m.setters ==> a in table.vals && rt.GetTypeCasting(table.vals[a].ref) == Some(m.setters[a]))
    && m.initializer == (if Truthy(options.initialize) then
                           Some(if rt.defaults.Registered(klass).keys == [] then AppliesSupplied else MergesDefaults)
                         else None)
    && m.reader == (if Truthy(options.attributes) then
                      Some(Reader(table.keys, options.attributes == Sym("accessors")))
                    else None)
  }

  /** Once a compiled module is included, every name of its table has a
      visible getter and a visible setter running its type's rule. */
  lemma CompiledVisible(ms: seq<Methods>, m: Methods, table: Hash<AttributeData>, options: BuilderOptions,
                        rt: Runtime, klass: string)
    requires rt.Valid() && Compiled(m, table, options, rt, klass)
    ensures forall a :: a in table.vals ==>
              a in Getters(ms + [m]) && a in Setters(ms + [m]) &&
              rt.GetTypeCasting(table.vals[a].ref) == Some(Setters(ms + [m])[a])
  {
    IncludeShadows(ms, m);
  }

  /** A class with the FastAttributes extension: its attribute set, the
      modules the builders included into it, and the getters its own body
      defines over the generated ones (`def title; "..#{super}" end`),
      each a function of the instance variable. */
  class Owner {
    const name: string
    const overrides: map<string, Value -> Value>
    var modules: seq<Methods>
    var attributeSet: Hash<AttributeData>

    ghost predicate Valid()
      reads this
    {
      && Hashes.Valid(attributeSet)
      && forall i :: 0 <= i < |modules| && modules[i].reader.Some? ==> Distinct(modules[i].reader.value.names)
    }

    constructor (name: string, overrides: map<string, Value -> Value>)
      ensures Valid()
      ensures this.name == name && this.overrides == overrides
      ensures modules == [] && attributeSet == Empty()
    {
      this.name := name;
      this.overrides := overrides;
      modules := [];
      attributeSet := Empty();
    }

    /** The context a setter of this class runs in. */
    function Context(rt: Runtime): Coercions.Context
      reads this, rt, rt.typeCasting
    {
      Coercions.Context(map a | a in attributeSet.vals :: attributeSet.vals[a].ref, rt.typeCasting.table)
    }

    /** `attribute(*args)`: one declaration, compiled with no options and
        merged into the attribute set. When the type is not registered,
        UnsupportedTypeError is raised and nothing changes. */
    method Attribute(rt: Runtime, args: seq<Arg>) returns (err: Option<Error>)
      requires Valid() && rt.Valid() && NamesOk(args)
      modifies this, rt.defaults
      ensures Valid() && rt.Valid()
      ensures err == DeclarationError(rt, args)
      ensures Shuffle(args).Err? ==> err == Some(ArgumentCount)
      ensures err.Some? ==> attributeSet == old(attributeSet) && modules == old(modules) &&
                            rt.defaults.table == old(rt.defaults.table)
      ensures err.None? ==>
                var d := Shuffle(args).value;
                var table := Assign(Empty(), d.names, AttributeData(d.ref, d.options));
                && attributeSet == Merge(old(attributeSet), table)
                && |modules| == |old(modules)| + 1 && modules == old(modules) + [modules[|old(modules)|]]
                && Compiled(modules[|old(modules)|], table, NO_BUILDER_OPTIONS, rt, name)
                && (forall a :: a in d.names ==>
                      a in Getters(modules) && a in Setters(modules) &&
                      rt.GetTypeCasting(d.ref) == Some(Setters(modules)[a]))
                && rt.defaults.Registered(name) == RegisterDefaults(old(rt.defaults.Registered(name)), table.keys, table.vals)
      ensures forall c :: c != name ==>
                (c in rt.defaults.table <==> c in old(rt.defaults.table)) &&
                (c in rt.defaults.table ==> rt.defaults.table[c] == old(rt.defaults.table[c]))
    {
      var b := new Builder(this, NO_BUILDER_OPTIONS, rt);
      err := b.Attribute(args);
      if err.Some? {
        return;
      }
      ghost var d := Shuffle(args).value;
      ghost var table := b.attributes;
      assert table == Assign(Empty(), d.names, AttributeData(d.ref, d.options));
      AssignSpec(Empty(), d.names, AttributeData(d.ref, d.options));
      b.Compile();
      ghost var m := modules[|old(modules)|];
      assert modules == old(modules) + [m];
      assert Compiled(m, table, NO_BUILDER_OPTIONS, rt, name);
      CompiledVisible(old(modules), m, table, NO_BUILDER_OPTIONS, rt, name);
      attributeSet := Merge(attributeSet, b.attributes);
    }

    /** `define_attributes(options) { attribute ...; attribute ... }`: all
        declarations go into one builder compiled with `options`; the first
        declaration that fails stops the block, and then nothing changes. */
    method DefineAttributes(rt: Runtime, options: BuilderOptions, decls: seq<seq<Arg>>) returns (err: Option<Error>)
      requires Valid() && rt.Valid()
      requires forall i :: 0 <= i < |decls| ==> NamesOk(decls[i])
      modifies this, rt.defaults
      ensures Valid() && rt.Valid()
      ensures err == FirstError(rt, decls)
      ensures err.None? <==> forall i :: 0 <= i < |decls| ==>
                Shuffle(decls[i]).Ok? && rt.TypeExists(Shuffle(decls[i]).value.ref)
      ensures err.Some? ==> attributeSet == old(attributeSet) && modules == old(modules) &&
                            rt.defaults.table == old(rt.defaults.table)
      ensures err.None? ==> attributeSet == Merge(old(attributeSet), DeclareAll(Empty(), Declarations(decls)))
      ensures err.None? ==> |modules| == |old(modules)| + 1 && modules == old(modules) + [modules[|old(modules)|]]
      ensures err.None? ==>
                var table := DeclareAll(Empty(), Declarations(decls));
                && Compiled(modules[|old(modules)|], table, options, rt, name)
                && (forall a :: a in table.vals ==>
                      a in Getters(modules) && a in Setters(modules) &&
                      rt.GetTypeCasting(table.vals[a].ref) == Some(Setters(modules)[a]))
      ensures err.None? ==>
                var table := DeclareAll(Empty(), Declarations(decls));
                rt.defaults.Registered(name) == RegisterDefaults(old(rt.defaults.Registered(name)), table.keys, table.vals)
      ensures forall c :: c != name ==>
                (c in rt.defaults.table <==> c in old(rt.defaults.table)) &&
                (c in rt.defaults.table ==> rt.defaults.table[c] == old(rt.defaults.table[c]))
    {
      var b := new Builder(this, options, rt);
      err := b.Declare(decls);
      if err.Some? {
        return;
      }
      ghost var table := b.attributes;
      assert table == DeclareAll(Empty(), Declarations(decls));
      b.Compile();
      ghost var m := modules[|old(modules)|];
      assert modules == old(modules) + [m];
      assert Compiled(m, table, options, rt, name);
      CompiledVisible(old(modules), m, table, options, rt, name);
      attributeSet := Merge(attributeSet, b.attributes);
    }
  }

  /** The declarations of a `define_attributes` block whose arguments all
      shuffle. */
  function Declarations(decls: seq<seq<Arg>>): (ds: seq<Declaration>)
    requires forall i :: 0 <= i < |decls| ==> NamesOk(decls[i]) && Shuffle(decls[i]).Ok?
    ensures |ds| == |decls|
    ensures forall i :: 0 <= i < |decls| ==> ds[i] == Shuffle(decls[i]).value
  {
    seq(|decls|, i requires 0 <= i < |decls| => Shuffle(decls[i]).value)
  }

  lemma DeclarationsStep(decls: seq<seq<Arg>>, i: nat)
    requires i < |decls|
    requires forall j :: 0 <= j <= i ==> NamesOk(decls[j]) && Shuffle(decls[j]).Ok?
    ensures Declarations(decls[..i + 1]) == Declarations(decls[..i]) + [Shuffle(decls[i]).value]
    ensures (Declarations(decls[..i]) + [Shuffle(decls[i]).value])[..i] == Declarations(decls[..i])
  {
    assert decls[..i + 1][..i] == decls[..i];
  }

  /** `FastAttributes::Builder`. */
  class Builder {
    const klass: Owner
    const options: BuilderOptions
    const runtime: Runtime
    var attributes: Hash<AttributeData>

    ghost predicate Valid()
      reads this, runtime, runtime.typeCasting, runtime.defaults
    {
      Hashes.Valid(attributes) && runtime.Valid()
    }

    constructor (klass: Owner, options: BuilderOptions, runtime: Runtime)
      requires runtime.Valid()
      ensures Valid()
      ensures this.klass == klass && this.options == options && this.runtime == runtime
      ensures attributes == Empty()
    {
      this.klass := klass;
      this.options := options;
      this.runtime := runtime;
      attributes := Empty();
    }

    /** `attribute(*names, type, options)`: the type must be registered
        (`ensure_type_exists!`), and then every name maps to the same
        entry; a name declared before is overwritten in place. */
    method Attribute(args: seq<Arg>) returns (err: Option<Error>)
      requires Valid() && NamesOk(args)
      modifies this
      ensures Valid()
      ensures err == DeclarationError(runtime, args)
      ensures Shuffle(args).Err? ==> err == Some(ArgumentCount) && attributes == old(attributes)
      ensures Shuffle(args).Ok? && !runtime.TypeExists(Shuffle(args).value.ref) ==>
                err == Some(UnsupportedType(Shuffle(args).value.ref)) && attributes == old(attributes)
      ensures Shuffle(args).Ok? && runtime.TypeExists(Shuffle(args).value.ref) ==>
                var d := Shuffle(args).value;
                err.None? && attributes == Assign(old(attributes), d.names, AttributeData(d.ref, d.options))
    {
      var shuffled := Shuffle(args);
      if shuffled.Err? {
        return Some(shuffled.error);
      }
      var d := shuffled.value;
      if !runtime.TypeExists(d.ref) {
        return Some(UnsupportedType(d.ref));
      }
      var data := AttributeData(d.ref, d.options);
      var i := 0;
      while i < |d.names|
        invariant 0 <= i <= |d.names|
        invariant Hashes.Valid(attributes)
        invariant attributes == Assign(old(attributes), d.names[..i], data)
      {
        attributes := Put(attributes, d.names[i], data);
        assert d.names[..i + 1][..i] == d.names[..i];
        i := i + 1;
      }
      assert d.names[..i] == d.names;
      return None;
    }

    /** The block of `define_attributes`: its declarations in order; the
        first one that raises ends the block. */
    method Declare(decls: seq<seq<Arg>>) returns (err: Option<Error>)
      requires Valid()
      requires forall i :: 0 <= i < |decls| ==> NamesOk(decls[i])
      requires forall a :: a in attributes.vals ==> runtime.TypeExists(attributes.vals[a].ref)
      modifies this
      ensures Valid()
      ensures err.None? <==> forall i :: 0 <= i < |decls| ==>
                Shuffle(decls[i]).Ok? && runtime.TypeExists(Shuffle(decls[i]).value.ref)
      ensures err == FirstError(runtime, decls)
      ensures err.None? ==> attributes == DeclareAll(old(attributes), Declarations(decls))
      ensures err.None? ==> forall a :: a in attributes.vals ==> runtime.TypeExists(attributes.vals[a].ref)
    {
      var i := 0;
      while i < |decls|
        invariant 0 <= i <= |decls|
        invariant Valid()
        invariant forall j :: 0 <= j < i ==> Shuffle(decls[j]).Ok? && runtime.TypeExists(Shuffle(decls[j]).value.ref)
        invariant attributes == DeclareAll(old(attributes), Declarations(decls[..i]))
        invariant forall a :: a in attributes.vals ==> runtime.TypeExists(attributes.vals[a].ref)
      {
        ghost var before := attributes;
        err := Attribute(decls[i]);
        if err.Some? {
          return;
        }
        ghost var d := Shuffle(decls[i]).value;
        AssignSpec(before, d.names, AttributeData(d.ref, d.options));
        DeclarationsStep(decls, i);
        i := i + 1;
      }
      assert decls[..i] == decls;
      return None;
    }

    /** `compile!`: getters and setters for every declared name, defaults
        registered, the constructor and the `attributes` reader only when
        their options are truthy, and the module included into the class. */
    method Compile()
      requires Valid() && klass.Valid()
      requires forall a :: a in attributes.vals ==> runtime.TypeExists(attributes.vals[a].ref)
      modifies klass, runtime.defaults
      ensures Valid() && klass.Valid()
      ensures klass.attributeSet == old(klass.attributeSet)
      ensures |klass.modules| == |old(klass.modules)| + 1 && klass.modules[..|old(klass.modules)|] == old(klass.modules)
      ensures klass.modules == old(klass.modules) + [klass.modules[|old(klass.modules)|]]
      ensures Compiled(klass.modules[|old(klass.modules)|], attributes, options, runtime, klass.name)
      ensures runtime.defaults.Registered(klass.name) ==
                RegisterDefaults(old(runtime.defaults.Registered(klass.name)), attributes.keys, attributes.vals)
      ensures forall c :: c != klass.name ==>
                (c in runtime.defaults.table <==> c in old(runtime.defaults.table)) &&
                (c in runtime.defaults.table ==> runtime.defaults.table[c] == old(runtime.defaults.table[c]))
    {
      var getters := CompileGetters();
      var setters := CompileSetters();
      SetDefaults();
      var initializer: Option<Initializer> := None;
      if Truthy(options.initialize) {
        initializer := CompileInitialize();
      }
      var reader: Option<Reader> := None;
      if Truthy(options.attributes) {
        reader := CompileAttributes(options.attributes);
      }
      var m := Methods(getters, setters, initializer, reader);
      klass.modules := klass.modules + [m];
      assert klass.modules[|old(klass.modules)|] == m;
    }

    /** `compile_getter`: a getter for every declared name. */
    method CompileGetters() returns (getters: set<string>)
      requires Valid()
      ensures getters == attributes.vals.Keys
    {
      var keys := attributes.keys;
      getters := {};
      var i := 0;
      while i < |keys|
        invariant 0 <= i <= |keys|
        invariant getters == set k | k in keys[..i]
      {
        getters := getters + {keys[i]};
        assert forall k :: k in keys[..i + 1] <==> k in keys[..i] || k == keys[i];
        i := i + 1;
      }
      assert keys[..i] == keys;
    }

    /** `compile_setter`: for every declared name, a setter running the rule
        registered for its type at this point. */
    method CompileSetters() returns (setters: map<string, Rule>)
      requires Valid()
      requires forall a :: a in attributes.vals ==> runtime.TypeExists(attributes.vals[a].ref)
      ensures setters.Keys == attributes.vals.Keys
      ensures forall a :: a in setters ==> runtime.GetTypeCasting(attributes.vals[a].ref) == Some(setters[a])
    {
      var keys := attributes.keys;
      setters := map[];
      var i := 0;
      while i < |keys|
        invariant 0 <= i <= |keys|
        invariant setters.Keys == set k | k in keys[..i]
        invariant forall a :: a in setters ==> runtime.GetTypeCasting(attributes.vals[a].ref) == Some(setters[a])
      {
        var rule := runtime.GetTypeCasting(attributes.vals[keys[i]].ref);
        setters := setters[keys[i] := rule.value];
        assert forall k :: k in keys[..i + 1] <==> k in keys[..i] || k == keys[i];
        i := i + 1;
      }
      assert keys[..i] == keys;
    }

    /** `set_defaults`: every declared name whose `:default` option is
        truthy gets that default registered for the class. */
    method SetDefaults()
      requires Valid()
      modifies runtime.defaults
      ensures Valid()
      ensures runtime.defaults.Registered(klass.name) ==
                RegisterDefaults(old(runtime.defaults.Registered(klass.name)), attributes.keys, attributes.vals)
      ensures forall c :: c != klass.name ==>
                (c in runtime.defaults.table <==> c in old(runtime.defaults.table)) &&
                (c in runtime.defaults.table ==> runtime.defaults.table[c] == old(runtime.defaults.table[c]))
    {
      var keys := attributes.keys;
      var i := 0;
      while i < |keys|
        invariant 0 <= i <= |keys|
        invariant Valid()
        invariant runtime.defaults.Registered(klass.name) ==
                    RegisterDefaults(old(runtime.defaults.Registered(klass.name)), keys[..i], attributes.vals)
        invariant forall c :: c != klass.name ==>
                    (c in runtime.defaults.table <==> c in old(runtime.defaults.table)) &&
                    (c in runtime.defaults.table ==> runtime.defaults.table[c] == old(runtime.defaults.table[c]))
      {
        var data := attributes.vals[keys[i]];
        if Truthy(data.options.default) {
          runtime.defaults.AddDefaultAttribute(klass.name, keys[i], data.options.default);
        }
        assert keys[..i + 1][..i] == keys[..i];
        i := i + 1;
      }
      assert keys[..i] == keys;
    }

    /** `compile_initialize`: whether the constructor merges defaults is
        decided now, by whether the class has any defaults registered. */
    method CompileInitialize() returns (initializer: Option<Initializer>)
      requires Valid()
      ensures initializer == Some(if runtime.defaults.Registered(klass.name).keys == [] then AppliesSupplied else MergesDefaults)
    {
      var empty := runtime.defaults.Registered(klass.name).keys == [];
      initializer := Some(if empty then AppliesSupplied else MergesDefaults);
    }

    /** `compile_attributes(mode)`: the reader lists this builder's names in
        declaration order and reads through the getters exactly in mode
        :accessors. */
    method CompileAttributes(mode: Value) returns (reader: Option<Reader>)
      requires Valid()
      ensures reader.Some? && reader.value.names == attributes.keys
      ensures reader.value.viaGetters <==> mode == Sym("accessors")
      ensures Distinct(reader.value.names)
    {
      reader := Some(Reader(attributes.keys, mode == Sym("accessors")));
    }
  }

  /** The hash the generated `attributes` method returns: the names in
      order, each read through its getter (an override of the class, or the
      generated getter) or straight from the instance variable. */
  function ReadAttributes(reader: Reader, fields: map<string, Value>, overrides: map<string, Value -> Value>): (r: Hash<Value>)
    requires Distinct(reader.names)
    ensures Hashes.Valid(r)
    ensures r.keys == reader.names
    ensures forall n :: n in reader.names && !reader.viaGetters ==> r.vals[n] == FieldOf(fields, n)
    ensures forall n :: n in reader.names && reader.viaGetters ==> r.vals[n] == GetterOf(fields, overrides, n)
  {
    Hash(reader.names, map n | n in reader.names :: if reader.viaGetters then GetterOf(fields, overrides, n) else FieldOf(fields, n))
  }

  /** `@name`: nil until assigned. */
  function FieldOf(fields: map<string, Value>, name: string): Value {
    if name in fields then fields[name] else Nil
  }

  /** What calling the getter returns: the class's own getter when it
      defines one, else the instance variable. */
  function GetterOf(fields: map<string, Value>, overrides: map<string, Value -> Value>, name: string): Value {
    if name in overrides then overrides[name](FieldOf(fields, name)) else FieldOf(fields, name)
  }

  /** Where the class overrides none of the getters, reading through the
      getters and reading the instance variables give the same hash. */
  lemma AccessorModeAgrees(names: seq<string>, fields: map<string, Value>, overrides: map<string, Value -> Value>)
    requires Distinct(names)
    requires forall n :: n in names ==> n !in overrides
    ensures ReadAttributes(Reader(names, true), fields, overrides) == ReadAttributes(Reader(names, false), fields, overrides)
  {
  }

  /** An object of an owner class. */
  class Instance {
    const owner: Owner
    var fields: map<string, Value>

    /** `allocate`: no instance variable is set. */
    constructor Allocate(owner: Owner)
      ensures this.owner == owner && fields == map[]
    {
      this.owner := owner;
      fields := map[];
    }

    /** Calling the getter `name`; None when the class has no such method. */
    function Get(name: string): (r: Option<Value>)
      reads this, owner
      ensures r.Some? <==> name in owner.overrides || name in Getters(owner.modules)
      ensures r.Some? ==> r.value == GetterOf(fields, owner.overrides, name)
      ensures r.Some? && name !in owner.overrides ==> r.value == FieldOf(fields, name)
    {
      if name in owner.overrides || name in Getters(owner.modules) then Some(GetterOf(fields, owner.overrides, name))
      else None
    }

    /** Calling the setter `name=` with `v`. */
    method Set(rt: Runtime, name: string, v: Value) returns (err: Option<Error>)
      modifies this
      ensures var r := SetField(Setters(owner.modules), owner.Context(rt), old(fields), name, v);
              && (r.Ok? ==> err.None? && fields == r.value)
              && (r.Err? ==> err == Some(r.error) && fields == old(fields))
    {
      var setters := Setters(owner.modules);
      if name !in setters {
        return Some(NoSetter(name));
      }
      var r := Coerce(setters[name], name, owner.Context(rt), v);
      if r.Err? {
        return Some(r.error);
      }
      fields := fields[name := r.value];
      return None;
    }

    /** `initialize(attributes)` as the class has it: without a generated
        constructor only `new` with no argument works; otherwise every pair
        goes through its setter, defaults first when they are merged in. */
    method Initialize(rt: Runtime, supplied: Option<Hash<Value>>, call: Value -> Value) returns (err: Option<Error>)
      requires rt.Valid()
      requires supplied.Some? ==> Hashes.Valid(supplied.value)
      modifies this
      ensures InitializerOf(owner.modules).None? ==>
                err == (if supplied.Some? then Some(ArgumentCount) else None) && fields == old(fields)
      ensures InitializerOf(owner.modules).Some? ==>
                var pairs := Pairs(InitializerOf(owner.modules).value, rt.defaults.Registered(owner.name),
                                   if supplied.Some? then supplied.value else Empty(), call);
                Applied(fields, err) == Run(Setters(owner.modules), owner.Context(rt), old(fields), pairs.keys, pairs.vals)
    {
      var init := InitializerOf(owner.modules);
      if init.None? {
        return if supplied.Some? then Some(ArgumentCount) else None;
      }
      var given := if supplied.Some? then supplied.value else Empty();
      var pairs := given;
      if init.value == MergesDefaults {
        var memo := rt.defaults.DefaultAttributes(owner.name, call);
        assert memo == DefaultAttributes.ProvideAll(rt.defaults.Registered(owner.name), call);
        pairs := Merge(Values(memo), given);
      }
      assert pairs == Pairs(init.value, rt.defaults.Registered(owner.name), given, call);
      err := ApplyAll(Setters(owner.modules), owner.Context(rt), pairs);
    }

    /** The loop of the generated constructor: each pair in order through
        its setter, stopping at the first that raises. */
    method ApplyAll(setters: map<string, Rule>, ctx: Context, pairs: Hash<Value>) returns (err: Option<Error>)
      requires Hashes.Valid(pairs)
      modifies this
      ensures Applied(fields, err) == Run(setters, ctx, old(fields), pairs.keys, pairs.vals)
    {
      var i := 0;
      while i < |pairs.keys|
        invariant 0 <= i <= |pairs.keys|
        invariant Run(setters, ctx, old(fields), pairs.keys, pairs.vals) == Run(setters, ctx, fields, pairs.keys[i..], pairs.vals)
      {
        var name := pairs.keys[i];
        var r := SetField(setters, ctx, fields, name, pairs.vals[name]);
        assert pairs.keys[i..][1..] == pairs.keys[i + 1..];
        if r.Err? {
          return Some(r.error);
        }
        fields := r.value;
        i := i + 1;
      }
      return None;
    }

    /** Calling the generated `attributes` method; None when the class has
        none. */
    function Attributes(): (r: Option<Hash<Value>>)
      reads this, owner
      requires owner.Valid()
      ensures r.Some? <==> ReaderOf(owner.modules).Some?
      ensures r.Some? ==> r.value.keys == ReaderOf(owner.modules).value.names
      ensures ReaderOf(owner.modules).Some? ==> Distinct(ReaderOf(owner.modules).value.names)
      ensures r.Some? ==> r.value == ReadAttributes(ReaderOf(owner.modules).value, fields, owner.overrides)
    {
      ReaderDistinct(owner.modules);
      match ReaderOf(owner.modules)
      case None => None
      case Some(reader) => Some(ReadAttributes(reader, fields, owner.overrides))
    }
  }

  /** The reader a class shows lists each name once. */
  lemma {:induction false} ReaderDistinct(ms: seq<Methods>)
    requires forall i :: 0 <= i < |ms| && ms[i].reader.Some? ==> Distinct(ms[i].reader.value.names)
    ensures ReaderOf(ms).Some? ==> Distinct(ReaderOf(ms).value.names)
    decreases |ms|
  {
    if ms != [] && ms[|ms| - 1].reader.None? {
      ReaderDistinct(ms[..|ms| - 1]);
    }
  }

  /** `class Book; extend FastAttributes; attribute :pages, Integer; end`,
      with Integer registered under `integer`. */
  method DeclarePages(rt: Runtime, integer: Rule) returns (book: Owner)
    requires rt.Valid()
    requires rt.TypeExists(Class("Integer")) && rt.GetTypeCasting(Class("Integer")) == Some(integer)
    modifies rt.defaults
    ensures fresh(book) && rt.Valid()
    ensures book.overrides == map[] && book.Valid()
    ensures "pages" in Getters(book.modules) && "pages" in Setters(book.modules)
    ensures Setters(book.modules)["pages"] == integer
  {
    book := new Owner("Book", map[]);
    ShuffleTwoArguments("pages", Class("Integer"));
    var err := book.Attribute(rt, [Ref(Symbol("pages")), Ref(Class("Integer"))]);
  }

  /** A Book: assigning '250' to `pages` and reading it back gives 250 when
      Integer('250') is 250, from the library as loaded. */
  method PagesFromText(p: Parsers) returns (pages: Option<Value>)
    requires p.toInteger(Str("250")) == Some(Int(250))
    ensures pages == Some(Int(250))
  {
    var rt := new Runtime(p);
    SeededInteger(p);
    var integer := ClassRule("Integer", p.toInteger);
    var book := DeclarePages(rt, integer);
    var b := new Instance.Allocate(book);
    ClassRuleCoercion("Integer", p.toInteger, "pages", book.Context(rt), Str("250"));
    var err := b.Set(rt, "pages", Str("250"));
    pages := b.Get("pages");
  }
}
