# fast_attributes, modelled in Dafny

fast_attributes is a Ruby gem. It turns attribute declarations such as
`attribute :title, String` into coercing accessors. This project models the
core of that machinery:

- **The type casting registry** (`TypeCasting`, module `TypeCastings`). It is a
  Hash from type references (a class, a String, a Symbol, or an `Array[T]` /
  `Set[T]` instance) to casting rules.
  - Every write, read and delete acts on the raw reference and on its
    normalised symbol (`DateTime` gives `:date_time`).
  - Lookup falls back to the normalised key when the raw entry is missing or
    falsy.
- **The default store** (module `DefaultAttributes`). It holds default values
  per class and attribute. A read returns a fresh Hash:
  - a callable provider is called;
  - nil, booleans, numerics and symbols are handed out as they are;
  - anything else is cloned (a shallow copy).
- **The built-in casting rules** (module `Coercions`):
  - the rule `set_type_casting` builds for a class;
  - the `:boolean` rule;
  - the `:collection_array` and `:collection_set` rules, which coerce each
    item of `Array(value)` with the element type's rule.
- **The process-wide state** (module `Registry`): the registry seeded with the
  eleven built-in rules, plus the default store. Module `Registry` also has
  `type_cast`, `set_type_casting`, `get_type_casting`, `remove_type_casting`
  and `type_exists?`.
- **The attribute builder** (module `Builders`):
  - `Builder#attribute` with its argument shuffling and its check that the type
    exists;
  - the name → `{type, options}` table;
  - `compile!`, which generates getters, setters and defaults, plus the
    constructor and the `attributes` reader when their options ask for them;
  - the owning class's `attribute` / `define_attributes`, which merge into
    `attribute_set`;
  - an instance of the class running the generated methods against its
    instance variables.

Two supporting modules model what the core relies on from Ruby:

- `Ruby`: values, `===` by ancestors, truthiness, `Kernel#Array`, `Set.new`.
- `Hashes`: a Hash that keeps insertion order, with `[]=` and `merge`.

A casting rule is modelled by what it does, not by its code template. It is
an ordered list of `when` guards with bodies, plus an `otherwise` body. The
guards are Ruby `case value when ...` tests at run time:

- `from 'nil'` is `when nil`;
- `from klass.name` is `when Klass`, the `===` test;
- `from '"yes"'` is `when "yes"`.

The generated methods are data that the class includes, one `Methods` value
per `compile!`:

- the getter names;
- a map from attribute name to the rule its setter runs;
- the kind of constructor;
- the `attributes` reader.

`Instance` runs these against a map of instance variables.

Guards test the value the setter receives at run time, not the text of the
expression passed in:

- every setter body is compiled with the expression `value`
  (lib/fast_attributes/builder.rb:64);
- `set_type_casting` guards with `klass.name` (lib/fast_attributes.rb:26),
  which can only match through `===` on the runtime value;
- the test suite assigns plain values and expects the guarded results:
  - `'attribute name 1'` gives the attribute name
    (spec/fast_attributes_spec.rb:203-210);
  - `'yes'` gives true and `42` gives nil
    (spec/fast_attributes_spec.rb:212-224).

## Model

| member | source | states |
|---|---|---|
| TypeCastings.TypeCasting.Get | lib/fast_attributes/type_casting.rb:8-11 | `[]` is the lookup `Fetch`: the raw entry if present and truthy, else the entry under the normalised key |
| TypeCastings.FetchOrder | lib/fast_attributes/type_casting.rb:8-11 | a present, truthy raw entry wins; a missing or falsy raw entry falls back to the normalised key; the lookup is nil exactly when neither applies |
| TypeCastings.Fetch | lib/fast_attributes/type_casting.rb:8-11 | a lookup result is the entry under the raw key or the entry under the normalised key; a present normalised key always gives a result, and a key that is not `key?` gives nil |
| TypeCastings.TypeCasting.Delete | lib/fast_attributes/type_casting.rb:13-17 | the new table is the old one without the raw key and without the normalised key |
| TypeCastings.Deleted | lib/fast_attributes/type_casting.rb:13-17 | neither the raw key nor the normalised key remains; every other key keeps its presence and its entry |
| TypeCastings.DeleteThenAbsent | lib/fast_attributes/type_casting.rb:13-17 | after `delete(k)`, `key?` is false for `k` and for its normalised form, `[]` gives nil, and every other key is untouched |
| TypeCastings.TypeCasting.HasKey | lib/fast_attributes/type_casting.rb:19-22 | `key?` holds exactly when the raw key or its normalised form is present |
| TypeCastings.FetchIffPresent | lib/fast_attributes/type_casting.rb:8-22 | in a table of truthy rules, `[]` finds something exactly when `key?` holds |
| TypeCastings.TypeCasting.Store | lib/fast_attributes/type_casting.rb:24-28 | the new table is the old one with the value under the raw key and under the normalised key |
| TypeCastings.Stored | lib/fast_attributes/type_casting.rb:24-28 | both the raw key and the normalised key hold the value; every other key keeps its presence and its entry |
| TypeCastings.StoreThenFetch | lib/fast_attributes/type_casting.rb:24-28 | after `store(k, v)`, looking up `k` or its normalised form gives `v`; every other key keeps its entry |
| TypeCastings.Normalize | lib/fast_attributes/type_casting.rb:34-43 | every type reference normalises to a Symbol |
| TypeCastings.NormalizeAgrees | lib/fast_attributes/type_casting.rb:34-43 | a class, its name as a String and its underscored symbol give the same key; normalising twice changes nothing |
| TypeCastings.NormalizeCollections | lib/fast_attributes/type_casting.rb:36-38 | a Symbol stays as it is; any Array instance gives `:collection_array` and any Set instance gives `:collection_set`, whatever the elements |
| TypeCastings.NormalizeArraySetClasses | lib/fast_attributes/type_casting.rb:39-41 | the classes `Array` and `Set` give `:array` and `:set`, not the collection keys |
| TypeCastings.SplitWordsLength | lib/fast_attributes/type_casting.rb:46 | the gsub adds exactly one character per lower-case letter followed by an upper-case letter |
| TypeCastings.SplitWords | lib/fast_attributes/type_casting.rb:46 | the gsub drops no character and adds nothing but underscores |
| TypeCastings.SplitWordsNoUpper | lib/fast_attributes/type_casting.rb:46 | a name with no upper-case letter is not changed by the gsub |
| TypeCastings.SplitWordsLowerRun | lib/fast_attributes/type_casting.rb:46 | a run of lower-case letters followed by a capital gets one underscore, right after the run |
| TypeCastings.UnderscoreCanonical | lib/fast_attributes/type_casting.rb:45-47 | the result of `underscore` has no upper-case letter; a lower-case name is left as it is; underscoring twice changes nothing; the length grows by the number of word breaks |
| TypeCastings.Underscore | lib/fast_attributes/type_casting.rb:45-47 | the underscored name has no upper-case letter |
| TypeCastings.UnderscoreWord | lib/fast_attributes/type_casting.rb:45-47 | a capitalised word is only lower-cased (`Integer` gives `integer`) |
| TypeCastings.UnderscoreTwoWords | lib/fast_attributes/type_casting.rb:45-47 | two capitalised words run together get one underscore between them, and every letter is lower-cased |
| TypeCastings.UnderscoreDateTime | lib/fast_attributes/type_casting.rb:32-47 | `DateTime` normalises to `:date_time` |
| TypeCastings.UnderscoreUserForm | lib/fast_attributes/type_casting.rb:45-47 | `'UserForm'` normalises to `:user_form` |
| DefaultAttributes.CloneableClassification | lib/fast_attributes/default_attributes.rb:24-31 | nil, true, false, integers, other Numerics and symbols are not cloneable; strings, arrays, sets and procs are |
| DefaultAttributes.Provide | lib/fast_attributes/default_attributes.rb:8-14 | a callable provider is called and its result handed out; any other value is handed out as a clone when cloneable, and only a non-cloneable value is shared |
| DefaultAttributes.ReadNeverAliases | lib/fast_attributes/default_attributes.rb:7-15 | a read has the same keys as the store, and every stored value it hands out unchanged is non-cloneable; every other value is a fresh (shallow) clone or a provider's result |
| DefaultAttributes.DefaultStore.Registered | lib/fast_attributes/default_attributes.rb:6 | a class with no registered defaults has an empty mapping |
| DefaultAttributes.DefaultStore.AddDefaultAttribute | lib/fast_attributes/default_attributes.rb:18-22 | only the (class, attribute) entry is set, overwriting an earlier provider; every other class's entry is unchanged |
| DefaultAttributes.DefaultStore.DefaultAttributes | lib/fast_attributes/default_attributes.rb:5-16 | the result has exactly the attributes registered for the class, in registration order, each provided afresh; it is empty for a class without defaults |
| Hashes.Put | lib/fast_attributes/builder.rb:29 | `h[k] = v`: the value is set; an existing key keeps its position and a new one goes last |
| Hashes.AssignSpec | lib/fast_attributes/builder.rb:28-30 | after assigning one value to several names, each maps to that value, the other entries are unchanged and the old keys keep their order |
| Hashes.Merge | lib/fast_attributes.rb:54 | `merge!`: on a shared key the argument's value wins; the receiver's keys come first, in order, followed by the argument's new keys in the argument's order |
| Hashes.PutAllOrder | lib/fast_attributes.rb:54 | assigning a run of keys appends, in the run's order, exactly the keys that were not there yet, each once |
| Hashes.MergeValues | lib/fast_attributes.rb:54 | assigning every entry of the argument in turn leaves exactly the receiver's entries overridden by the argument's |
| Ruby.ToArray | lib/fast_attributes.rb:85 | `Array(v)`: nil gives `[]`, an Array stays as it is, a scalar is wrapped in a one-element list |
| Ruby.Dedup | lib/fast_attributes.rb:97 | `Set.new(items)` holds exactly the items, once each, and is no larger than the list |
| Ruby.DedupDistinct | lib/fast_attributes.rb:97 | a list without repeats gives a Set with the same elements in the same order |
| Coercions.FirstMatchWins | lib/fast_attributes.rb:23-29 | guards are tried in order and the first one that matches decides the body |
| Coercions.NoMatchOtherwise | lib/fast_attributes.rb:23-29 | when no guard matches, the `otherwise` body applies |
| Coercions.SelectFrom | lib/fast_attributes.rb:23-29 | the selected body is always one of the clause bodies or the `otherwise` body |
| Coercions.BooleanListsDisjoint | lib/fast_attributes.rb:11-12 | no value is in both TRUE_VALUES and FALSE_VALUES, and nil is in neither |
| Coercions.CastBoolean | lib/fast_attributes.rb:101-113 | true exactly for TRUE_VALUES, false exactly for FALSE_VALUES, nil exactly for nil; anything else is an invalid value naming the attribute |
| Coercions.BooleanRuleCoercion | lib/fast_attributes.rb:101-113 | the `:boolean` rule is the boolean cast, and casting a cast value again gives the same result |
| Coercions.ClassRule | lib/fast_attributes.rb:23-29 | the rule `set_type_casting` builds selects `nil` for nil, the value itself for an instance of the class, and the conversion for anything else |
| Coercions.SelectTwo | lib/fast_attributes.rb:24-27 | with two guards, the first that matches decides, then the second, then `otherwise` |
| Coercions.ClassRuleCoercion | lib/fast_attributes.rb:23-29 | a `set_type_casting` rule maps nil to nil, passes a value already of the class through unchanged, and sends anything else through the conversion, whose failure is an invalid value |
| Coercions.ClassRuleIdempotent | lib/fast_attributes.rb:23-29 | when the conversion only produces instances of the class, coercing a coerced value changes nothing |
| Coercions.RunScalar | lib/fast_attributes.rb:84-85 | an element coercion fails only with an invalid value naming the attribute |
| Coercions.CoerceElement | lib/fast_attributes.rb:84-85 | the element coercion `compile_lambda` gives fails only with an invalid value naming the attribute |
| Coercions.CoerceEach | lib/fast_attributes.rb:85 | mapping the element coercion succeeds exactly when it succeeds on every item; the result has the same length and its i-th element is the coercion of the i-th item |
| Coercions.Coerce | lib/fast_attributes/builder.rb:61-72 | the setter body a rule compiles to: it never raises anything but an invalid value naming its own attribute; a collection body gives a list as long as `Array(value)`, or a Set no larger than it |
| Coercions.ElementRule | lib/fast_attributes.rb:81-82 | the element rule of a collection attribute exists exactly when the attribute is declared, its type names an element type, and that type is registered; it is then one of the registered rules |
| Coercions.ScalarRuleEverywhere | lib/fast_attributes.rb:84-85 | a rule without collection bodies coerces an element exactly as a setter coerces a value |
| Coercions.CollectionArrayCoercion | lib/fast_attributes.rb:78-87 | nil gives nil; a missing element rule is an invalid value; otherwise the result is a list as long as `Array(value)` whose i-th element is the element coercion of its i-th item, and it succeeds exactly when every item does |
| Coercions.WrapsScalarInList | lib/fast_attributes.rb:78-87 | `'1'` assigned to an `Array[Integer]` attribute gives `[1]` |
| Coercions.CollectionSetCoercion | lib/fast_attributes.rb:89-99 | nil gives nil; otherwise the result is a Set holding exactly the coerced items, once each, no larger than `Array(value)`; it succeeds exactly when every item does |
| Coercions.BuiltinRulesNilSafe | lib/fast_attributes.rb:23-113 | every built-in rule maps nil to nil |
| Registry.StoreEachSpec | lib/fast_attributes.rb:39-46 | `type_cast` stores the same rule under every listed reference and its normalised key, and leaves every other key as it was |
| Registry.StoreEach | lib/fast_attributes.rb:39-46 | no key is lost, and every listed reference and its normalised key are registered afterwards |
| Registry.Runtime.TypeCast | lib/fast_attributes.rb:39-46 | the registry after the loop is the old one with the rule stored under every listed reference, first to last |
| Registry.Runtime.GetTypeCasting | lib/fast_attributes.rb:19-21 | the registry lookup; it finds a rule exactly when the type exists |
| Registry.Runtime.TypeExists | lib/fast_attributes.rb:35-37 | holds exactly when the reference or its normalised key is registered |
| Registry.Runtime.SetTypeCasting | lib/fast_attributes.rb:23-29 | afterwards the class exists and its lookup gives the class rule; only the class and its normalised key change |
| Registry.Runtime.RemoveTypeCasting | lib/fast_attributes.rb:31-33 | afterwards the type does not exist and its lookup gives nil |
| Registry.SetThenRemove | lib/fast_attributes.rb:23-33 | registering a class and removing it again leaves it unknown, and the keys the two calls do not touch are as before |
| Registry.Runtime.constructor | lib/fast_attributes.rb:69-113 | loading the library makes the eleven built-in registrations in source order, starting from an empty registry and store |
| Registry.SeededRefsDistinct | lib/fast_attributes.rb:69-113 | the eleven seeded references are distinct: eight classes, then three symbols |
| Registry.SeededRule | lib/fast_attributes.rb:69-113 | in the seeded registry, String, Integer, Float, Array, Date, Time, DateTime, BigDecimal, `:collection_array`, `:collection_set` and `:boolean` each exist and are bound to their built-in rule |
| Registry.SeededInteger | lib/fast_attributes.rb:70 | Integer is registered with the class rule over `Integer()` |
| Registry.SeededRulesNilSafe | lib/fast_attributes.rb:69-113 | every rule in the seeded registry maps nil to nil |
| Builders.Shuffle | lib/fast_attributes/builder.rb:17-22 | fewer than two arguments is an ArgumentError; when the last argument is not a Hash, the one before it is one more name and the options are `{}` |
| Builders.ShuffleRoundTrip | lib/fast_attributes/builder.rb:17-22 | shuffling recovers the declaration, whether it is written with its options or without them |
| Builders.ShuffleTwoArguments | lib/fast_attributes/builder.rb:17-22 | `attribute :name, Type` declares `:name` of that type with no options |
| Builders.DeclarationError | lib/fast_attributes/builder.rb:17-49 | a declaration fails exactly when it has too few arguments or names an unregistered type, which is UnsupportedTypeError for that type |
| Builders.FirstError | lib/fast_attributes.rb:49-52 | a block fails exactly when one of its declarations does, with the error of the first one that fails |
| Builders.Builder.Attribute | lib/fast_attributes/builder.rb:17-49 | an unregistered type is UnsupportedTypeError and records no name; otherwise every name maps to the same `{type, options}` entry, and a name declared before is overwritten in place |
| Builders.Builder.Declare | lib/fast_attributes.rb:49-51 | the block's declarations run in order; the error is that of the first one that fails, and without one the table is `DeclareAll` of them |
| Builders.DeclareAllLatest | lib/fast_attributes/builder.rb:26-30 | across several declarations, a name maps to the entry of the last declaration naming it |
| Builders.DeclareAllUntouched | lib/fast_attributes/builder.rb:26-30 | a name no declaration mentions keeps its old entry, or stays absent |
| Builders.Builder.Compile | lib/fast_attributes/builder.rb:33-42 | one module is included, and it is `Compiled` from the table: a getter and a setter for every declared name, each setter running its type's rule; the constructor and the reader exist only when their options are truthy; defaults are registered for this class only |
| Builders.Builder.CompileGetters | lib/fast_attributes/builder.rb:51-59 | a getter for exactly the declared names |
| Builders.Builder.CompileSetters | lib/fast_attributes/builder.rb:61-72 | a setter for exactly the declared names, each running the rule the registry holds for its type at compile time |
| Builders.Builder.SetDefaults | lib/fast_attributes/builder.rb:119-124 | the class's defaults become `RegisterDefaults` of the declared names; other classes are untouched |
| Builders.RegisterDefaultsSpec | lib/fast_attributes/builder.rb:119-124 | a default is registered exactly for the names whose `:default` is truthy, with that value; other entries are unchanged and keep their order |
| Builders.Builder.CompileInitialize | lib/fast_attributes/builder.rb:74-90 | the constructor merges defaults exactly when the class has defaults registered at compile time |
| Builders.Builder.CompileAttributes | lib/fast_attributes/builder.rb:92-108 | the reader lists the declared names in declaration order, each once, and reads through the getters exactly in mode `:accessors` |
| Builders.ReadAttributes | lib/fast_attributes/builder.rb:99-106 | the `attributes` Hash has the names in order, each read from its instance variable or through its getter depending on the mode |
| Builders.AccessorModeAgrees | lib/fast_attributes/builder.rb:94-97 | when the class overrides no getter, both modes give the same Hash |
| Builders.IncludeShadows | lib/fast_attributes/builder.rb:116 | an included module's methods win over those of every earlier module, and the earlier ones stay visible where it defines nothing |
| Builders.CompiledVisible | lib/fast_attributes/builder.rb:110-117 | after a compiled module is included, every name of its table has a visible getter and a visible setter that runs the registry's rule for the name's type |
| Builders.SetField | lib/fast_attributes/builder.rb:67-69 | a setter stores the coercion of its value, or raises an invalid value and stores nothing; an unknown name is a NoMethodError |
| Builders.RunSucceeds | lib/fast_attributes/builder.rb:76-80 | the constructor's loop succeeds exactly when every name has a setter that accepts its value; a failure names the attribute it stopped at |
| Builders.RunAssignsEach | lib/fast_attributes/builder.rb:76-80 | after a successful loop each name holds the coercion of its value and every other instance variable is unchanged |
| Builders.SuppliedWins | lib/fast_attributes/builder.rb:84-90 | with defaults merged in, a supplied value wins over the default, a name that is only defaulted gets the default as a read hands it out, and defaulted names come first; without defaults only the supplied mapping is applied |
| Builders.Owner.constructor | lib/fast_attributes.rb:65-67 | a class starts with an empty `attribute_set` and no included module |
| Builders.Owner.Attribute | lib/fast_attributes.rb:57-63 | the declaration's error, if any, is raised and leaves the class and the defaults unchanged; otherwise one module compiled from the declaration's table is included, with no constructor and no reader, so every declared name has a getter and a setter running its type's rule; the class's defaults become `RegisterDefaults` of the table and no other class's change; the table is merged into `attribute_set`, so the new entries override earlier ones |
| Builders.Owner.DefineAttributes | lib/fast_attributes.rb:49-55 | the error of the block's first failing declaration is raised and leaves everything unchanged; otherwise one module compiled from the table of all declarations with the block's options is included, so every declared name has a getter and a setter running its type's rule; the class's defaults become `RegisterDefaults` of the table and no other class's change; the table is merged into `attribute_set` |
| Builders.DeclarePages | spec/fixtures/classes.rb:1-5 | after `attribute :pages, Integer`, the class has a getter and a setter for `pages`, the setter running Integer's rule |
| Builders.PagesFromText | spec/fast_attributes_spec.rb:102-116 | on the library as loaded, assigning `'250'` to `pages` of a Book and reading it back gives 250 when `Integer('250')` is 250 |
| Builders.Instance.Get | lib/fast_attributes/builder.rb:51-59 | a getter exists for every generated or overridden name; the generated one returns the instance variable unchanged, nil until assigned |
| Builders.Instance.Set | lib/fast_attributes/builder.rb:61-72 | the setter stores the coercion its rule gives, or raises and leaves the instance variables unchanged |
| Builders.Instance.Initialize | lib/fast_attributes/builder.rb:74-90 | without a generated constructor only `new` with no argument works; otherwise the instance variables are those of running the setters over the supplied pairs, merged after the defaults when the class has defaults |
| Builders.Instance.ApplyAll | lib/fast_attributes/builder.rb:76-80 | the loop calls the setters in order and stops at the first that raises, which is `Run` |
| Builders.Instance.Attributes | lib/fast_attributes/builder.rb:103-107 | the `attributes` method exists exactly when a reader was generated; it lists its names in declaration order, each read as `ReadAttributes` reads it in the reader's mode |
| Builders.ReaderDistinct | lib/fast_attributes/builder.rb:92-101 | the reader visible on a class lists each name once |

## Left out

- Template text: lib/fast_attributes/type_cast.rb is not part of this model. The `%s`, `%a` and `%%` substitution, `compile_method_body` and `compile_lambda` are modelled by what the compiled code does (`Coerce`, `CoerceElement`), not as text. Every failure inside a compiled body is assumed to raise InvalidValueError naming the attribute.
- A collection rule registered as the element type of another collection: the model makes it an invalid value, since the element coercion has no owner class to read the element type from.
- `module_eval` / `instance_eval` source generation and the generated module's `inspect` string: the generated methods are data (`Methods`).
- The Kernel conversions and parsers (`String()`, `Integer()`, `Float()`, `Date.parse`, `Time.parse`, `DateTime.parse`, `BigDecimal()`): these are parameters (`Parsers`) that may succeed or fail. Float and BigDecimal arithmetic are not modelled.
- DefaultAttributes.ReadNeverAliases: `clone` is shallow, so the objects inside a cloned default, such as the inner lists of `[[1], [2]]`, stay shared between reads. `Cloned` only says that the top-level object is fresh. `Callable` is only a Proc, while `respond_to?(:call)` also accepts a Method or any object with `call`. A provider's `call` is a total function, so a provider that raises is not modelled.
- `Array()` on a Hash or on an object with `to_a`/`to_ary`: `ToArray` only covers nil, Array, Set and scalars.
- Getters defined in the class body are functions of the instance variable (`Owner.overrides`). `super` chains, and overridden setters or constructors, are not modelled.
- The `ignore_undefined` option: the builder never reads it.
- Error message text: errors are kept by kind and attribute name (or type) only.
- `String#downcase` beyond ASCII: only `A`-`Z` are lower-cased.
- Classes are identified by name. Anonymous classes and reopened or re-assigned constants are not modelled.
- Builders.Shuffle: requires that every argument ending up as a name is a Symbol or String (`NamesOk`). Ruby would raise NoMethodError from `to_sym` on anything else; that error is not modelled.
- Builders.Owner.Attribute: symbol and string keys are both plain names, so the difference between `attribute_set` (Symbol keys) and the reader (String keys) is not modelled.
- Builders.Builder.Compile: requires every declared type to still be registered. Removing a type between `attribute` and `compile!` (a NoMethodError on nil in Ruby) is not modelled.
- Builders.Builder.CompileInitialize: calls nothing. In Ruby, the emptiness check itself reads the defaults, which calls every callable provider once at compile time; that call's side effects are not modelled.
- Builders.Instance.Initialize: a setter that raises leaves the instance variables as set so far. Ruby discards the half-built object, so only the error is observable.
- Instances of subclasses: the generated constructor merges `FastAttributes.default_attributes(self.class)` (lib/fast_attributes/builder.rb:88), and the collection rules read `self.class.attribute_set` (lib/fast_attributes.rb:81, 92). An instance of a subclass therefore gets no defaults, and its collection setters fail on `nil[:type]`. The model always uses the class that compiled the methods, so subclasses are not modelled.
- Process-global state and thread safety: the registry and default store are one `Runtime` object passed explicitly, and there is no concurrency.
