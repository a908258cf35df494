/** Default values per class and attribute. Reading produces a fresh
    mapping: a callable provider is called, an immutable value is handed out
    as it is, and anything else is cloned. */
module DefaultAttributes {
  import opened Ruby
  import opened Hashes

  /** Classes are identified by name. */
  type ClassName = string

  const SINGLETON_CLASSES: seq<string> := ["NilClass", "TrueClass", "FalseClass", "Numeric", "Symbol"]

  /** `cloneable?`: the value is not an instance of any singleton class. */
  predicate Cloneable(v: Value) {
    forall i :: 0 <= i < |SINGLETON_CLASSES| ==> !KindOf(v, SINGLETON_CLASSES[i])
  }

  /** nil, booleans, integers and symbols are never cloned; strings,
      arrays, sets and procs always are; another object is cloned unless it
      is a Numeric. */
  lemma CloneableClassification(v: Value)
    ensures v.Nil? || v.Bool? || v.Int? || v.Sym? ==> !Cloneable(v)
    ensures v.Str? || v.Arr? || v.SetOf? || v.Proc? ==> Cloneable(v)
    ensures v.Obj? && "Numeric" in v.supers ==> !Cloneable(v)
  {
    match v {
      case Nil => assert KindOf(v, SINGLETON_CLASSES[0]);
      case Bool(b) => assert KindOf(v, SINGLETON_CLASSES[if b then 1 else 2]);
      case Int(_) => assert KindOf(v, SINGLETON_CLASSES[3]);
      case Sym(_) => assert KindOf(v, SINGLETON_CLASSES[4]);
      case Obj(_, supers, _) =>
        if "Numeric" in supers {
          assert KindOf(v, SINGLETON_CLASSES[3]);
        }
      case _ =>
    }
  }

  /** `value.respond_to?(:call)`. */
  predicate Callable(v: Value) {
    v.Proc?
  }

  /** What one read hands out for one entry: the stored object itself, a
      clone of it, or the result of calling it. */
  datatype Provided = Shared(value: Value) | Cloned(value: Value) | Invoked(value: Value)

  /** The value one read produces from a provider; `call` gives the result of
      calling a callable provider on this read. */
  function Provide(p: Value, call: Value -> Value): (r: Provided)
    ensures Callable(p) ==> r == Invoked(call(p))
    ensures !Callable(p) ==> r.value == p
    ensures r.Shared? ==> !Cloneable(r.value)
    ensures !Callable(p) && Cloneable(p) ==> r.Cloned?
  {
    if Callable(p) then Invoked(call(p))
    else if Cloneable(p) then Cloned(p)
    else Shared(p)
  }

  /** The mapping one read returns: the same keys in the same order, each
      entry provided afresh. */
  function ProvideAll(h: Hash<Value>, call: Value -> Value): Hash<Provided>
    requires Valid(h)
  {
    Hash(h.keys, map k | k in h.vals :: Provide(h.vals[k], call))
  }

  /** A read shares only non-cloneable values with the store; every other
      value is a shallow clone or a provider's result. */
  lemma ReadNeverAliases(h: Hash<Value>, call: Value -> Value)
    requires Valid(h)
    ensures Valid(ProvideAll(h, call))
    ensures ProvideAll(h, call).vals.Keys == h.vals.Keys
    ensures forall k :: k in ProvideAll(h, call).vals && ProvideAll(h, call).vals[k].Shared? ==>
              !Cloneable(ProvideAll(h, call).vals[k].value)
  {
  }

  /** The defaults of every class: `@default_attributes`. */
  class DefaultStore {
    var table: map<ClassName, Hash<Value>>

    ghost predicate Valid()
      reads this
    {
      forall c :: c in table ==> Hashes.Valid(table[c])
    }

    constructor ()
      ensures Valid() && table == map[]
    {
      table := map[];
    }

    /** The providers registered for `klass`, in registration order. */
    function Registered(klass: ClassName): (h: Hash<Value>)
      reads this
      requires Valid()
      ensures Hashes.Valid(h)
      ensures klass !in table ==> h.keys == []
    {
      if klass in table then table[klass] else Empty()
    }

    /** `add_default_attribute(klass, attribute, value)`. */
    method AddDefaultAttribute(klass: ClassName, attribute: string, value: Value)
      requires Valid()
      modifies this
      ensures Valid()
      ensures table == old(table)[klass := Put(old(Registered(klass)), attribute, value)]
    {
      var providers := Registered(klass);
      table := table[klass := Put(providers, attribute, value)];
    }

    /** `default_attributes(klass)`: a fresh mapping with an entry for every
        attribute registered for `klass`, in registration order; empty for a
        class with no defaults. */
    method DefaultAttributes(klass: ClassName, call: Value -> Value) returns (memo: Hash<Provided>)
      requires Valid()
      ensures Hashes.Valid(memo)
      ensures memo.keys == Registered(klass).keys
      ensures memo.vals.Keys == Registered(klass).vals.Keys
      ensures forall a :: a in memo.vals ==> memo.vals[a] == Provide(Registered(klass).vals[a], call)
    {
      memo := Empty();
      if klass !in table {
        return;
      }
      var providers := table[klass];
      var i := 0;
      while i < |providers.keys|
        invariant 0 <= i <= |providers.keys|
        invariant Hashes.Valid(memo)
        invariant memo.keys == providers.keys[..i]
        invariant forall a :: a in memo.vals ==> a in providers.vals && memo.vals[a] == Provide(providers.vals[a], call)
      {
        var attribute := providers.keys[i];
        assert attribute !in providers.keys[..i];
        memo := Put(memo, attribute, Provide(providers.vals[attribute], call));
        assert providers.keys[..i + 1] == providers.keys[..i] + [attribute];
        i := i + 1;
      }
      assert providers.keys[..i] == providers.keys;
    }
  }
}
