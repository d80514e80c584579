/** `Thesaurus` (src/runtime/internal/utils.ts:4-92): a dictionary keyed by
    strings and numbers, with typed errors. A number key names the same entry
    as its decimal text, as a property of a JavaScript object does, and the
    backing object has no prototype, so only stored keys are present.

    The class changes its entries in place; the functions `SetEntries`,
    `GetEntry` and `DelEntries` say what each operation does to the entries,
    and the lemmas after the class state what the dictionary promises. */
module Thesauri {
  import opened Either
  import opened Errors
  import opened Values

  /** The errors of the dictionary all point at line 1, column 1 of `<builtins>`. */
  function BuiltinsError(kind: ErrorKind, message: string): QError
  {
    Error(kind, message, 1, 1, Some("<builtins>"))
  }

  const PairExpected: QError := BuiltinsError(TypeError, "key-value pair expected")
  const BadKey: QError := BuiltinsError(TypeError, "key must be a string or a number")

  function Missing(key: string): QError
  {
    BuiltinsError(ReferenceError, "key " + key + " does not exist")
  }

  /** `set(kv)` on the entries: `kv` must be an array of two elements whose
      first is a string or a number. */
  function SetEntries(entries: map<string, Value>, kv: Value): (r: Either<map<string, Value>, QError>)
  {
    if !kv.Array? || |kv.items| != 2 then Err(PairExpected)
    else match PropertyKey(kv.items[0])
      case None => Err(BadKey)
      case Some(k) => Ok(entries[k := kv.items[1]])
  }

  /** `get(key)`: a stored `undefined` counts as missing. */
  function GetEntry(entries: map<string, Value>, key: Value): (r: Either<Value, QError>)
  {
    match PropertyKey(key)
    case None => Err(BadKey)
    case Some(k) => if k !in entries || entries[k] == Undefined then Err(Missing(k)) else Ok(entries[k])
  }

  /** `del(key)`: `delete` on an own, configurable property always answers true. */
  function DelEntries(entries: map<string, Value>, key: Value): (r: Either<map<string, Value>, QError>)
  {
    match PropertyKey(key)
    case None => Err(BadKey)
    case Some(k) => Ok(entries - {k})
  }

  class Thesaurus {
    var entries: map<string, Value>

    constructor()
      ensures entries == map[]
    {
      entries := map[];
    }

    /** `Thesaurus.create(obj)`: a new dictionary holding a copy of `obj`'s entries. */
    static method Create(obj: map<string, Value>) returns (t: Thesaurus)
      ensures fresh(t) && t.entries == obj
    {
      t := new Thesaurus();
      t.entries := obj;
    }

    method Set(kv: Value) returns (r: Either<Thesaurus, QError>)
      modifies this
      ensures SetEntries(old(entries), kv).Ok? ==> r == Ok(this) && entries == SetEntries(old(entries), kv).value
      ensures SetEntries(old(entries), kv).Err? ==> r == Err(SetEntries(old(entries), kv).error) && entries == old(entries)
    {
      if !kv.Array? || |kv.items| != 2 {
        return Err(PairExpected);
      }
      var key, value := kv.items[0], kv.items[1];
      if !key.Str? && !key.Num? {
        return Err(BadKey);
      }
      entries := entries[PropertyKey(key).value := value];
      return Ok(this);
    }

    method Get(key: Value) returns (r: Either<Value, QError>)
      ensures r == GetEntry(entries, key)
    {
      if !key.Str? && !key.Num? {
        return Err(BadKey);
      }
      var k := PropertyKey(key).value;
      if k !in entries || entries[k] == Undefined {
        return Err(Missing(k));
      }
      return Ok(entries[k]);
    }

    method Del(key: Value) returns (r: Either<bool, QError>)
      modifies this
      ensures DelEntries(old(entries), key).Ok? ==> r == Ok(true) && entries == DelEntries(old(entries), key).value
      ensures DelEntries(old(entries), key).Err? ==> r == Err(DelEntries(old(entries), key).error) && entries == old(entries)
    {
      if !key.Str? && !key.Num? {
        return Err(BadKey);
      }
      entries := entries - {PropertyKey(key).value};
      return Ok(true);
    }

    /** `copy()`: a new dictionary with the same entries. */
    method Copy() returns (t: Thesaurus)
      ensures fresh(t) && t.entries == entries
    {
      t := Create(entries);
    }

    /** `keys`: every stored key once. JavaScript lists integer-like keys in
        ascending order and then the others in insertion order; the order is
        not modelled. */
    method Keys() returns (ks: seq<string>)
      ensures forall i, j :: 0 <= i < j < |ks| ==> ks[i] != ks[j]
      ensures forall k :: k in ks <==> k in entries
      ensures |ks| == |entries.Keys|
    {
      ks := [];
      var rest := entries.Keys;
      while rest != {}
        invariant forall i, j :: 0 <= i < j < |ks| ==> ks[i] != ks[j]
        invariant forall k :: k in ks <==> k in entries && k !in rest
        invariant rest <= entries.Keys
        invariant |ks| + |rest| == |entries.Keys|
        decreases |rest|
      {
        var k :| k in rest;
        ks := ks + [k];
        rest := rest - {k};
      }
    }

    /** `length`: the number of keys. */
    method Length() returns (n: nat)
      ensures n == |entries.Keys|
    {
      var ks := Keys();
      n := |ks|;
    }
  }

  // ---------------------------------------------------------------------------
  // What the dictionary promises.

  /** `set` rejects anything but a two-element array, and a key that is neither
      a string nor a number, with a TypeError. */
  lemma SetRejects(entries: map<string, Value>, kv: Value)
    ensures !kv.Array? || |kv.items| != 2 ==> SetEntries(entries, kv) == Err(PairExpected)
    ensures kv.Array? && |kv.items| == 2 && !kv.items[0].Str? && !kv.items[0].Num? ==>
      SetEntries(entries, kv) == Err(BadKey)
    ensures SetEntries(entries, kv).Err? ==> SetEntries(entries, kv).error.kind == TypeError
  {
  }

  /** After `set([k, v])`, `get(k)` answers `v` (or, for a stored `undefined`,
      reports the key missing), and every other key answers as before. */
  lemma SetThenGet(entries: map<string, Value>, k: Value, v: Value, other: Value)
    requires SetEntries(entries, Array([k, v])).Ok?
    ensures var after := SetEntries(entries, Array([k, v])).value;
      GetEntry(after, k) == (if v == Undefined then Err(Missing(PropertyKey(k).value)) else Ok(v))
      && (PropertyKey(other) != PropertyKey(k) ==> GetEntry(after, other) == GetEntry(entries, other))
  {
  }

  /** `get` with a bad key is a TypeError, and on a missing key or one bound to
      `undefined` a ReferenceError. */
  lemma GetErrors(entries: map<string, Value>, key: Value)
    ensures PropertyKey(key).None? ==> GetEntry(entries, key) == Err(BadKey)
    ensures PropertyKey(key).Some? ==>
      (GetEntry(entries, key).Err? <==>
        (PropertyKey(key).value !in entries || entries[PropertyKey(key).value] == Undefined))
    ensures GetEntry(entries, key).Err? && PropertyKey(key).Some? ==>
      GetEntry(entries, key).error.kind == ReferenceError
  {
  }

  /** `del` with a bad key is a TypeError; after a successful `del(k)`,
      `get(k)` is a ReferenceError and the other keys are untouched. */
  lemma DelThenGet(entries: map<string, Value>, k: Value, other: Value)
    ensures PropertyKey(k).None? ==> DelEntries(entries, k) == Err(BadKey)
    ensures DelEntries(entries, k).Ok? ==>
      var after := DelEntries(entries, k).value;
      GetEntry(after, k) == Err(Missing(PropertyKey(k).value))
      && (PropertyKey(other) != PropertyKey(k) ==> GetEntry(after, other) == GetEntry(entries, other))
  {
  }

  /** Setting a new key adds one to the length; overwriting a key leaves it. */
  lemma LengthAfterSet(entries: map<string, Value>, k: Value, v: Value)
    requires SetEntries(entries, Array([k, v])).Ok?
    ensures var key := PropertyKey(k).value;
      |SetEntries(entries, Array([k, v])).value.Keys| == |entries.Keys| + (if key in entries then 0 else 1)
  {
    var key := PropertyKey(k).value;
    var after := SetEntries(entries, Array([k, v])).value;
    if key in entries {
      assert after.Keys == entries.Keys;
    } else {
      assert after.Keys == entries.Keys + {key};
    }
  }

  /** A copy starts with the same entries, and `set` or `del` on the copy
      leaves the original as it was. */
  method CopyIsIndependent(t: Thesaurus, kv: Value, key: Value)
    returns (copy: Thesaurus)
    ensures fresh(copy) && copy != t
    ensures t.entries == old(t.entries)
  {
    copy := t.Copy();
    assert copy.entries == t.entries;
    var _ := copy.Set(kv);
    var _ := copy.Del(key);
  }
}
