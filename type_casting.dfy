/** The registry of type casting rules: a Hash whose every write and read
    acts on the raw type reference and on its normalised symbol. */
module TypeCastings {
  import opened Ruby

  const ARRAY_KEY := "collection_array"
  const SET_KEY := "collection_set"

  predicate IsLower(c: char) { 'a' <= c <= 'z' }
  predicate IsUpper(c: char) { 'A' <= c <= 'Z' }

  /** `String#downcase` on one ASCII character. */
  function Downcase(c: char): (d: char)
    ensures !IsUpper(d)
    ensures !IsUpper(c) ==> d == c
  {
    if IsUpper(c) then (c as int + 32) as char else c
  }

  function DowncaseAll(s: string): (r: string)
    ensures |r| == |s|
    ensures forall i :: 0 <= i < |s| ==> r[i] == Downcase(s[i])
  {
    seq(|s|, i requires 0 <= i < |s| => Downcase(s[i]))
  }

  /** `gsub(/([a-z])([A-Z])/, '\1_\2')`: scanning left to right, an
      underscore goes between a lower-case letter and the upper-case letter
      right after it. */
  function SplitWords(s: string): (r: string)
    ensures forall c :: c in s ==> c in r
    ensures forall c :: c in r ==> c in s || c == '_'
    decreases |s|
  {
    if |s| < 2 then s
    else if IsLower(s[0]) && IsUpper(s[1]) then [s[0], '_', s[1]] + SplitWords(s[2..])
    else [s[0]] + SplitWords(s[1..])
  }

  /** `underscore`: 'UserForm' becomes "user_form". */
  function Underscore(s: string): (r: string)
    ensures forall i :: 0 <= i < |r| ==> !IsUpper(r[i])
  {
    DowncaseAll(SplitWords(s))
  }

  /** The number of places where a lower-case letter is followed by an
      upper-case one. */
  function WordBreaks(s: string): nat
    decreases |s|
  {
    if |s| < 2 then 0
    else (if IsLower(s[0]) && IsUpper(s[1]) then 1 else 0) + WordBreaks(s[1..])
  }

  /** Underscore adds exactly one character per word break. */
  lemma {:induction false} SplitWordsLength(s: string)
    ensures |SplitWords(s)| == |s| + WordBreaks(s)
    decreases |s|
  {
    if |s| >= 2 {
      if IsLower(s[0]) && IsUpper(s[1]) {
        SplitWordsLength(s[2..]);
        assert s[1..][1..] == s[2..];
        // s[1] is upper case, so it cannot start a word break.
        assert WordBreaks(s[1..]) == WordBreaks(s[2..]);
      } else {
        SplitWordsLength(s[1..]);
      }
    }
  }

  /** A name with no upper-case letter has no word break to split. */
  lemma {:induction false} SplitWordsNoUpper(s: string)
    requires forall i :: 0 <= i < |s| ==> !IsUpper(s[i])
    ensures SplitWords(s) == s
    decreases |s|
  {
    if |s| >= 2 {
      SplitWordsNoUpper(s[1..]);
      assert [s[0]] + s[1..] == s;
    }
  }

  /** The result of underscore has no upper-case letter, a name already in
      lower case is left as it is, and underscoring twice changes nothing. */
  lemma UnderscoreCanonical(s: string)
    ensures forall i :: 0 <= i < |Underscore(s)| ==> !IsUpper(Underscore(s)[i])
    ensures (forall i :: 0 <= i < |s| ==> !IsUpper(s[i])) ==> Underscore(s) == s
    ensures Underscore(Underscore(s)) == Underscore(s)
    ensures |Underscore(s)| == |s| + WordBreaks(s)
  {
    SplitWordsLength(s);
    var u := Underscore(s);
    SplitWordsNoUpper(u);
    if forall i :: 0 <= i < |s| ==> !IsUpper(s[i]) {
      SplitWordsNoUpper(s);
    }
  }

  /** `normalize_klass_for_type_name`: the canonical symbol of a type reference. */
  function Normalize(t: TypeRef): (r: TypeRef)
    ensures r.Symbol?
  {
    match t
    case Symbol(_) => t
    case ArrayRef(_) => Symbol(ARRAY_KEY)
    case SetRef(_) => Symbol(SET_KEY)
    case Text(s) => Symbol(Underscore(s))
    case Class(n) => Symbol(Underscore(n))
  }

  /** A class, its name as a String and its canonical symbol all normalise
      to the same key; a normalised key normalises to itself. */
  lemma NormalizeAgrees(name: string, t: TypeRef)
    ensures Normalize(Class(name)) == Normalize(Text(name)) == Normalize(Symbol(Underscore(name)))
    ensures Normalize(Normalize(t)) == Normalize(t)
  {
  }

  lemma DowncaseAllIs(s: string, t: string)
    requires |s| == |t| && forall i :: 0 <= i < |s| ==> Downcase(s[i]) == t[i]
    ensures DowncaseAll(s) == t
  {
  }

  /** An upper-case letter at the front is never the end of a word break. */
  lemma SplitWordsCapital(c: char, t: string)
    requires IsUpper(c) && |t| > 0
    ensures SplitWords([c] + t) == [c] + SplitWords(t)
  {
    assert ([c] + t)[1..] == t;
  }

  /** A run of lower-case letters followed by an upper-case letter gets one
      underscore, right after the run. */
  lemma {:induction false} SplitWordsLowerRun(l: string, rest: string)
    requires |l| > 0 && forall i :: 0 <= i < |l| ==> IsLower(l[i])
    requires |rest| > 0 && IsUpper(rest[0])
    ensures SplitWords(l + rest) == l + "_" + SplitWords(rest)
    decreases |l|
  {
    var s := l + rest;
    if |l| == 1 {
      assert s[2..] == rest[1..];
      if |rest| >= 2 {
        assert SplitWords(rest) == [rest[0]] + SplitWords(rest[1..]);
      } else {
        assert rest == [rest[0]];
      }
    } else {
      assert s[1..] == l[1..] + rest;
      SplitWordsLowerRun(l[1..], rest);
    }
  }

  /** A capitalised word: 'Integer' becomes "integer". */
  lemma UnderscoreWord(c: char, l: string)
    requires IsUpper(c) && forall i :: 0 <= i < |l| ==> IsLower(l[i])
    ensures Underscore([c] + l) == [Downcase(c)] + l
  {
    if |l| > 0 {
      SplitWordsCapital(c, l);
      SplitWordsNoUpper(l);
    }
    DowncaseAllIs([c] + l, [Downcase(c)] + l);
  }

  /** Two capitalised words run together: 'UserForm' becomes "user_form".
      The underscore goes exactly between the lower-case letter ending the
      first word and the capital starting the second, and every letter is
      lower-cased. */
  lemma UnderscoreTwoWords(c: char, l: string, d: char, m: string)
    requires IsUpper(c) && |l| > 0 && forall i :: 0 <= i < |l| ==> IsLower(l[i])
    requires IsUpper(d) && forall i :: 0 <= i < |m| ==> IsLower(m[i])
    ensures Underscore([c] + l + [d] + m) == [Downcase(c)] + l + "_" + [Downcase(d)] + m
  {
    var s := [c] + l + [d] + m;
    assert s == [c] + (l + ([d] + m));
    SplitWordsCapital(c, l + ([d] + m));
    SplitWordsLowerRun(l, [d] + m);
    if |m| > 0 {
      SplitWordsCapital(d, m);
      SplitWordsNoUpper(m);
    }
    var split := [c] + l + "_" + [d] + m;
    assert SplitWords(s) == split;
    DowncaseAllIs(split, [Downcase(c)] + l + "_" + [Downcase(d)] + m);
  }

  /** Symbols stay as they are, and collection instances give the two
      fixed keys whatever their elements. */
  lemma NormalizeCollections(s: string, elems: seq<TypeRef>)
    ensures Normalize(Symbol(s)) == Symbol(s)
    ensures Normalize(ArrayRef(elems)) == Symbol("collection_array")
    ensures Normalize(SetRef(elems)) == Symbol("collection_set")
  {
  }

  /** The classes Array and Set themselves are underscored like any class:
      :array and :set, not the collection keys. */
  lemma NormalizeArraySetClasses()
    ensures Normalize(Class("Array")) == Symbol("array")
    ensures Normalize(Class("Set")) == Symbol("set")
  {
    UnderscoreWord('A', "rray");
    assert "Array" == ['A'] + "rray";
    UnderscoreWord('S', "et");
    assert "Set" == ['S'] + "et";
  }

  /** `DateTime` becomes :date_time. */
  lemma UnderscoreDateTime()
    ensures Normalize(Class("DateTime")) == Symbol("date_time")
  {
    assert "DateTime" == ['D'] + "ate" + ['T'] + "ime";
    UnderscoreTwoWords('D', "ate", 'T', "ime");
    assert Downcase('D') == 'd' && Downcase('T') == 't';
    assert ['d'] + "ate" + "_" + ['t'] + "ime" == "date_time";
  }

  /** 'UserForm' becomes :user_form. */
  lemma UnderscoreUserForm()
    ensures Normalize(Text("UserForm")) == Symbol("user_form")
  {
    assert "UserForm" == ['U'] + "ser" + ['F'] + "orm";
    UnderscoreTwoWords('U', "ser", 'F', "orm");
    assert Downcase('U') == 'u' && Downcase('F') == 'f';
    assert ['u'] + "ser" + "_" + ['f'] + "orm" == "user_form";
  }

  /** `[]`: the entry under the raw key when it is there and truthy,
      otherwise whatever is stored under the normalised key. */
  function Fetch<V>(table: map<TypeRef, V>, truthy: V -> bool, key: TypeRef): (r: Option<V>)
    ensures r.Some? ==> (key in table && r.value == table[key]) ||
                        (Normalize(key) in table && r.value == table[Normalize(key)])
    ensures Normalize(key) in table ==> r.Some?
    ensures !Present(table, key) ==> r.None?
  {
    if key in table && truthy(table[key]) then Some(table[key])
    else if Normalize(key) in table then Some(table[Normalize(key)])
    else None
  }

  /** `key?`: the raw key or its normalised form is present. */
  predicate Present<V>(table: map<TypeRef, V>, key: TypeRef) {
    key in table || Normalize(key) in table
  }

  /** `store`: the value goes under the raw key and under the normalised key. */
  function Stored<V>(table: map<TypeRef, V>, key: TypeRef, v: V): (r: map<TypeRef, V>)
    ensures key in r && r[key] == v
    ensures Normalize(key) in r && r[Normalize(key)] == v
    ensures forall k :: k != key && k != Normalize(key) ==> (k in r <==> k in table)
    ensures forall k :: k in table && k != key && k != Normalize(key) ==> r[k] == table[k]
  {
    table[key := v][Normalize(key) := v]
  }

  /** `delete`: both the raw key and the normalised key are removed. */
  function Deleted<V>(table: map<TypeRef, V>, key: TypeRef): (r: map<TypeRef, V>)
    ensures key !in r && Normalize(key) !in r
    ensures forall k :: k != key && k != Normalize(key) ==> (k in r <==> k in table)
    ensures forall k :: k in r ==> r[k] == table[k]
  {
    table - {key} - {Normalize(key)}
  }

  /** Lookup tries the raw key first; a missing or falsy raw entry falls
      back to the normalised key. */
  lemma FetchOrder<V>(table: map<TypeRef, V>, truthy: V -> bool, key: TypeRef)
    ensures key in table && truthy(table[key]) ==> Fetch(table, truthy, key) == Some(table[key])
    ensures !(key in table && truthy(table[key])) && Normalize(key) in table ==>
              Fetch(table, truthy, key) == Some(table[Normalize(key)])
    ensures Fetch(table, truthy, key).None? <==> Normalize(key) !in table && !(key in table && truthy(table[key]))
  {
  }

  /** With only truthy values stored, a lookup finds something exactly when
      `key?` holds. */
  lemma FetchIffPresent<V>(table: map<TypeRef, V>, truthy: V -> bool, key: TypeRef)
    requires forall k :: k in table ==> truthy(table[k])
    ensures Fetch(table, truthy, key).Some? <==> Present(table, key)
  {
  }

  /** After `store(k, v)`, looking up `k` or its normalised form gives `v`,
      even a falsy `v`, since both keys then hold it; every other key is
      untouched. */
  lemma StoreThenFetch<V>(table: map<TypeRef, V>, truthy: V -> bool, key: TypeRef, v: V)
    ensures Fetch(Stored(table, key, v), truthy, key) == Some(v)
    ensures Fetch(Stored(table, key, v), truthy, Normalize(key)) == Some(v)
    ensures Present(Stored(table, key, v), key) && Present(Stored(table, key, v), Normalize(key))
    ensures forall k :: k != key && k != Normalize(key) ==>
              (k in Stored(table, key, v) <==> k in table) &&
              (k in table ==> Stored(table, key, v)[k] == table[k])
  {
  }

  /** After `delete(k)`, neither `k` nor its normalised form is a key, and
      looking either up finds nothing. */
  lemma DeleteThenAbsent<V>(table: map<TypeRef, V>, truthy: V -> bool, key: TypeRef)
    ensures !Present(Deleted(table, key), key)
    ensures !Present(Deleted(table, key), Normalize(key))
    ensures Fetch(Deleted(table, key), truthy, key) == None
    ensures forall k :: k != key && k != Normalize(key) ==>
              (k in Deleted(table, key) <==> k in table)
  {
  }

  /** The registry object: a Hash from type references to casting rules. */
  class TypeCasting<V> {
    var table: map<TypeRef, V>
    const truthy: V -> bool

    constructor (truthy: V -> bool)
      ensures table == map[]
      ensures this.truthy == truthy
    {
      table := map[];
      this.truthy := truthy;
    }

    /** `type_casting[key]`. */
    function Get(key: TypeRef): (r: Option<V>)
      reads this
      ensures r == Fetch(table, truthy, key)
    {
      var symbol := Normalize(key);
      if key in table && truthy(table[key]) then Some(table[key])
      else if symbol in table then Some(table[symbol])
      else None
    }

    /** `type_casting.key?(key)`. */
    predicate HasKey(key: TypeRef)
      reads this
      ensures HasKey(key) == Present(table, key)
    {
      var symbol := Normalize(key);
      key in table || symbol in table
    }

    /** `type_casting.store(key, value)`. */
    method Store(key: TypeRef, value: V)
      modifies this
      ensures table == Stored(old(table), key, value)
    {
      var symbol := Normalize(key);
      table := table[key := value];
      table := table[symbol := value];
    }

    /** `type_casting.delete(key)`. */
    method Delete(key: TypeRef)
      modifies this
      ensures table == Deleted(old(table), key)
    {
      var symbol := Normalize(key);
      table := table - {key};
      table := table - {symbol};
    }
  }
}
