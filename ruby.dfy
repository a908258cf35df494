/** The part of Ruby's value domain that the library inspects: plain values,
    the type references an attribute can be declared with, truthiness,
    class membership (`klass === value`), `Kernel#Array` and `Set.new`. */
module Ruby {

  datatype Option<+T> = None | Some(value: T)

  /** A Ruby value. Classes are identified by name. An `Obj` lists its
      ancestors after its own class, so that `is_a?` can be answered for
      user classes, `Date`/`DateTime` and numerics such as `BigDecimal`. */
  datatype Value =
    | Nil
    | Bool(b: bool)
    | Int(i: int)
    | Str(s: string)
    | Sym(name: string)
    | Arr(items: seq<Value>)
    | SetOf(members: seq<Value>)   // a Set, in insertion order
    | Proc(id: nat)                // a lambda or proc: it responds to `call`
    | Obj(cls: string, supers: seq<string>, id: nat)

  /** A reference to a type, as `attribute` and `type_cast` accept it. */
  datatype TypeRef =
    | Symbol(name: string)          // :boolean, :string, :collection_array ...
    | Text(text: string)            // a String naming a type, 'UserForm'
    | Class(name: string)           // a class object, String, DateTime ...
    | ArrayRef(elems: seq<TypeRef>) // an Array instance, Array[Integer]
    | SetRef(elems: seq<TypeRef>)   // a Set instance, Set[Address]

  /** The errors the core raises, by kind. */
  datatype Error =
    | UnsupportedType(ref: TypeRef)   // UnsupportedTypeError at declaration
    | InvalidValue(attribute: string) // TypeCast::InvalidValueError from a setter
    | NoSetter(name: string)          // NoMethodError from the generated constructor
    | ArgumentCount                   // ArgumentError: Object#initialize takes no arguments

  datatype Result<+T> = Ok(value: T) | Err(error: Error)

  /** Only nil and false are falsy. */
  predicate Truthy(v: Value) {
    v != Nil && v != Bool(false)
  }

  /** The ancestors of the value's class, own class first. */
  function Ancestors(v: Value): (r: seq<string>)
    ensures |r| > 0
  {
    match v
    case Nil => ["NilClass", "Object", "Kernel", "BasicObject"]
    case Bool(b) => [if b then "TrueClass" else "FalseClass", "Object", "Kernel", "BasicObject"]
    case Int(_) => ["Integer", "Numeric", "Comparable", "Object", "Kernel", "BasicObject"]
    case Str(_) => ["String", "Comparable", "Object", "Kernel", "BasicObject"]
    case Sym(_) => ["Symbol", "Comparable", "Object", "Kernel", "BasicObject"]
    case Arr(_) => ["Array", "Enumerable", "Object", "Kernel", "BasicObject"]
    case SetOf(_) => ["Set", "Enumerable", "Object", "Kernel", "BasicObject"]
    case Proc(_) => ["Proc", "Object", "Kernel", "BasicObject"]
    case Obj(c, s, _) => [c] + s
  }

  /** `klass === v` for a class or module named `klass`, i.e. `v.is_a?(klass)`. */
  predicate KindOf(v: Value, klass: string) {
    klass in Ancestors(v)
  }

  /** `Kernel#Array(v)`: nil becomes [], an Array stays as it is, a Set
      gives its members, and anything else is wrapped in a one-element list. */
  function ToArray(v: Value): (r: seq<Value>)
    ensures v.Nil? ==> r == []
    ensures v.Arr? ==> r == v.items
    ensures !v.Nil? && !v.Arr? && !v.SetOf? ==> r == [v]
  {
    match v
    case Nil => []
    case Arr(items) => items
    case SetOf(members) => members
    case _ => [v]
  }

  ghost predicate Distinct<T>(s: seq<T>) {
    forall i, j :: 0 <= i < j < |s| ==> s[i] != s[j]
  }

  /** `Set.new(items)`: the first occurrence of every element, in order. */
  function Dedup(s: seq<Value>): (r: seq<Value>)
    ensures |r| <= |s|
    ensures Distinct(r)
    ensures forall x :: x in r <==> x in s
  {
    if s == [] then []
    else
      var d := Dedup(s[..|s| - 1]);
      assert forall x :: x in s <==> x in s[..|s| - 1] || x == s[|s| - 1];
      if s[|s| - 1] in d then d else d + [s[|s| - 1]]
  }

  /** Dedup keeps a list that has no repeated element unchanged. */
  lemma {:induction false} DedupDistinct(s: seq<Value>)
    requires Distinct(s)
    ensures Dedup(s) == s
  {
    if s != [] {
      var p := s[..|s| - 1];
      DedupDistinct(p);
      assert s[|s| - 1] !in p;
      assert p + [s[|s| - 1]] == s;
    }
  }
}
