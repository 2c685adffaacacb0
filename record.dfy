/**
 * DivirganceRecord: a string-keyed map of values that may also keep the
 * insertion order of its keys in a parallel list.
 */
module Records {
  import opened Base
  import opened Values
  import opened RecordLaws

  /** The ASCII lower-case form of a byte; other bytes are unchanged. */
  function LowerAscii(c: Byte): (l: Byte)
  {
    if 'A' as int <= c <= 'Z' as int then c + 32 else c
  }

  /**
   * Boolean.parseBoolean: true exactly for "true" in any letter case, that is,
   * for a four-byte text whose ASCII lower-case form is "true".
   */
  function ParseBoolean(t: Text): (b: bool)
    ensures b <==> |t| == 4 && forall i | 0 <= i < 4 :: LowerAscii(t[i]) == "true"[i] as int
  {
    && |t| == 4
    && (t[0] == 't' as int || t[0] == 'T' as int)
    && (t[1] == 'r' as int || t[1] == 'R' as int)
    && (t[2] == 'u' as int || t[2] == 'U' as int)
    && (t[3] == 'e' as int || t[3] == 'E' as int)
  }

  class DivirganceRecord {
    /** The HashMap holding the entries. */
    var fields: map<Text, Value>
    var ordered: bool
    /** The insertion order of the keys; empty when the record is not ordered. */
    var orderedKeys: seq<Text>

    /** The record's state as a value. */
    function State(): Rec
      reads this
    {
      Rec(ordered, orderedKeys, fields)
    }

    /** The object invariant, and every record nested in a value is sound too. */
    ghost predicate Valid()
      reads this
    {
      Sound(State()) && forall k | k in fields :: DeepSound(fields[k])
    }

    /** DivirganceRecord(): an empty ordered record. */
    constructor ()
      ensures Valid() && State() == Empty(true)
    {
      fields := map[];
      ordered := true;
      orderedKeys := [];
    }

    /** DivirganceRecord(boolean ordered). */
    constructor WithOrder(ordered: bool)
      ensures Valid() && State() == Empty(ordered)
    {
      fields := map[];
      this.ordered := ordered;
      orderedKeys := [];
    }

    /** DivirganceRecord(Map map): starts as an empty ordered record, then copies. */
    constructor Copy(src: Source)
      requires src.FromRecord? ==> Sound(src.r)
      requires forall v | v in (match src case FromRecord(o) => o.fields case FromMap(m) => m).Values :: DeepSound(v)
      ensures Valid() && State() == CopyOf(src)
    {
      ordered := true;
      orderedKeys := [];
      match src {
        case FromRecord(o) =>
          fields := o.fields;
          if o.ordered {
            orderedKeys := o.orderedKeys;
          }
        case FromMap(m) =>
          fields := m;
      }
    }

    function Size(): (n: nat)
      reads this
      ensures n == |State().fields|
    {
      |fields|
    }

    /** keySet() as a set: the ordered key list when ordered, else the map's keys. */
    function Keys(): (ks: set<Text>)
      reads this
      ensures ordered ==> forall k :: k in ks <==> k in orderedKeys
      ensures !ordered ==> ks == fields.Keys
      ensures Sound(State()) ==> ks <= fields.Keys
    {
      KeySet(State())
    }

    /** isNull(key): the key is absent or maps to null. */
    function IsNull(key: Text): (b: bool)
      reads this
      ensures b <==> key !in fields || fields[key] == Null
    {
      Get(State(), key).Null?
    }

    /** put(key, value): returns the previous value (null when there was none). */
    method Put(key: Text, value: Value) returns (previous: Value)
      requires Valid() && DeepSound(value)
      modifies this
      ensures Valid() && State() == Values.Put(old(State()), key, value)
      ensures previous == Get(old(State()), key)
    {
      if ordered && key !in orderedKeys {
        orderedKeys := orderedKeys + [key];
      }
      previous := Get(State(), key);
      fields := fields[key := value];
    }

    /** remove(key): returns the removed value (null when there was none). */
    method Remove(key: Text) returns (previous: Value)
      requires Valid()
      modifies this
      ensures Valid() && State() == Values.Remove(old(State()), key)
      ensures previous == Get(old(State()), key)
    {
      RemoveFirstMembers(orderedKeys, key);
      if ordered {
        orderedKeys := RemoveFirst(orderedKeys, key);
      }
      previous := Get(State(), key);
      fields := fields - {key};
    }

    /**
     * putAll(map): order is the iteration order of the argument's keySet(),
     * entries what the underlying HashMap receives.
     */
    method PutAll(order: seq<Text>, entries: map<Text, Value>)
      requires Valid() && forall k | k in order :: k in entries
      requires forall v | v in entries.Values :: DeepSound(v)
      modifies this
      ensures Valid() && State() == Values.PutAll(old(State()), order, entries)
    {
      if ordered {
        var i := 0;
        while i < |order|
          invariant 0 <= i <= |order|
          invariant NoDuplicates(orderedKeys)
          invariant forall k | k in orderedKeys :: k in fields || k in order[..i]
          invariant AppendNew(orderedKeys, order[i..]) == AppendNew(old(orderedKeys), order)
          invariant fields == old(fields) && ordered
        {
          var key := order[i];
          if key !in orderedKeys {
            orderedKeys := orderedKeys + [key];
          }
          assert order[i..] == [key] + order[i + 1..];
          assert order[..i + 1] == order[..i] + [key];
          i := i + 1;
        }
        assert order[i..] == [];
      }
      fields := fields + entries;
    }

    /** clear(). */
    method Clear()
      requires Valid()
      modifies this
      ensures Valid() && State() == Values.Clear(old(State()))
    {
      if ordered {
        orderedKeys := [];
      }
      fields := map[];
    }

    // -------------------------------------------------------------------------
    // Typed accessors. Null stands for both an absent key and a null value.

    /** getBoolean(key): a Boolean, or a String read by Boolean.parseBoolean. */
    function GetBoolean(key: Text): (r: Result<bool>)
      reads this
      ensures IsNull(key) ==> r == Err(NullValue(key))
      ensures r.Ok? <==> Get(State(), key).Bool? || Get(State(), key).Str?
      ensures Get(State(), key).Bool? ==> r.value == Get(State(), key).b
      ensures Get(State(), key).Str? ==> r.value == ParseBoolean(Get(State(), key).text)
      ensures !IsNull(key) && r.Err? ==> r.error == WrongClass(key)
    {
      match Get(State(), key)
      case Null => Err(NullValue(key))
      case Bool(b) => Ok(b)
      case Str(t) => Ok(ParseBoolean(t))
      case _ => Err(WrongClass(key))
    }

    /** getBoolean(key, defaultValue): as getBoolean, with the default for null. */
    function GetBooleanOr(key: Text, default: bool): (r: Result<bool>)
      reads this
      ensures IsNull(key) ==> r == Ok(default)
      ensures !IsNull(key) ==> r == GetBoolean(key)
    {
      if IsNull(key) then Ok(default) else GetBoolean(key)
    }

    /**
     * getDouble(key): a Double's bit pattern, or the result of
     * Double.parseDouble (given as parseDouble) on a String.
     */
    function GetDouble(key: Text, parseDouble: Text -> Result<nat>): (r: Result<nat>)
      reads this
      ensures IsNull(key) ==> r == Err(NullValue(key))
      ensures Get(State(), key).F64? ==> r == Ok(Get(State(), key).bits)
      ensures Get(State(), key).Str? ==> r == parseDouble(Get(State(), key).text)
      ensures !IsNull(key) && !Get(State(), key).F64? && !Get(State(), key).Str? ==> r == Err(WrongClass(key))
    {
      match Get(State(), key)
      case Null => Err(NullValue(key))
      case F64(bits) => Ok(bits)
      case Str(t) => parseDouble(t)
      case _ => Err(WrongClass(key))
    }

    /** getDouble(key, defaultValue). */
    function GetDoubleOr(key: Text, default: nat, parseDouble: Text -> Result<nat>): (r: Result<nat>)
      reads this
      ensures IsNull(key) ==> r == Ok(default)
      ensures !IsNull(key) ==> r == GetDouble(key, parseDouble)
    {
      if IsNull(key) then Ok(default) else GetDouble(key, parseDouble)
    }

    /**
     * getInt(key): only an Integer, or a String read by Integer.parseInt (given
     * as parseInt); a Long, Short or Byte is a type mismatch.
     */
    function GetInt(key: Text, parseInt: Text -> Result<int>): (r: Result<int>)
      reads this
      ensures IsNull(key) ==> r == Err(NullValue(key))
      ensures Get(State(), key).I32? ==> r == Ok(Get(State(), key).n)
      ensures Get(State(), key).Str? ==> r == parseInt(Get(State(), key).text)
      ensures !IsNull(key) && !Get(State(), key).I32? && !Get(State(), key).Str? ==> r == Err(WrongClass(key))
    {
      match Get(State(), key)
      case Null => Err(NullValue(key))
      case I32(n) => Ok(n)
      case Str(t) => parseInt(t)
      case _ => Err(WrongClass(key))
    }

    /** getInt(key, defaultValue). */
    function GetIntOr(key: Text, default: int, parseInt: Text -> Result<int>): (r: Result<int>)
      reads this
      ensures IsNull(key) ==> r == Ok(default)
      ensures !IsNull(key) ==> r == GetInt(key, parseInt)
    {
      if IsNull(key) then Ok(default) else GetInt(key, parseInt)
    }

    /** getJSONArray(key): null for null, the list for an ArrayList, else an error. */
    function GetJSONArray(key: Text): (r: Result<Option<seq<Value>>>)
      reads this
      ensures IsNull(key) ==> r == Ok(None)
      ensures Get(State(), key).Arr? ==> r == Ok(Some(Get(State(), key).items))
      ensures r.Err? <==> !IsNull(key) && !Get(State(), key).Arr?
      ensures r.Err? ==> r.error == WrongClass(key)
    {
      match Get(State(), key)
      case Null => Ok(None)
      case Arr(items) => Ok(Some(items))
      case _ => Err(WrongClass(key))
    }

    /** getJSONArray(key, defaultValue). */
    function GetJSONArrayOr(key: Text, default: Option<seq<Value>>): (r: Result<Option<seq<Value>>>)
      reads this
      ensures IsNull(key) ==> r == Ok(default)
      ensures !IsNull(key) ==> r == GetJSONArray(key)
    {
      if IsNull(key) then Ok(default) else GetJSONArray(key)
    }

    /** getJSONObject(key): null for null, the record for a DivirganceRecord, else an error. */
    function GetJSONObject(key: Text): (r: Result<Option<Rec>>)
      reads this
      ensures IsNull(key) ==> r == Ok(None)
      ensures Get(State(), key).Obj? ==> r == Ok(Some(Get(State(), key).rec))
      ensures r.Err? <==> !IsNull(key) && !Get(State(), key).Obj?
      ensures r.Err? ==> r.error == WrongClass(key)
    {
      match Get(State(), key)
      case Null => Ok(None)
      case Obj(rec) => Ok(Some(rec))
      case _ => Err(WrongClass(key))
    }

    /** getJSONObject(key, defaultValue). */
    function GetJSONObjectOr(key: Text, default: Option<Rec>): (r: Result<Option<Rec>>)
      reads this
      ensures IsNull(key) ==> r == Ok(default)
      ensures !IsNull(key) ==> r == GetJSONObject(key)
    {
      if IsNull(key) then Ok(default) else GetJSONObject(key)
    }

    /**
     * getString(key): null for null, otherwise value.toString() (given as
     * render), which for a String is the string itself.
     */
    function GetString(key: Text, render: Value -> Text): (r: Option<Text>)
      reads this
      ensures r.None? <==> IsNull(key)
      ensures Get(State(), key).Str? ==> r == Some(Get(State(), key).text)
      ensures !IsNull(key) && !Get(State(), key).Str? ==> r == Some(render(Get(State(), key)))
    {
      match Get(State(), key)
      case Null => None
      case Str(t) => Some(t)
      case v => Some(render(v))
    }

    /** getString(key, defaultValue). */
    function GetStringOr(key: Text, default: Option<Text>, render: Value -> Text): (r: Option<Text>)
      reads this
      ensures IsNull(key) ==> r == default
      ensures !IsNull(key) ==> r == GetString(key, render)
    {
      if IsNull(key) then default else GetString(key, render)
    }

    // -------------------------------------------------------------------------
    // equals and hashCode

    /**
     * equals(obj) for obj null or a DivirganceRecord (any other class is not
     * equal): same size, and every key of keySet() present in obj with a
     * strictly equal value.
     */
    method Equals(obj: DivirganceRecord?) returns (eq: bool)
      requires Valid() && (obj != null ==> obj.Valid())
      ensures eq <==> obj != null && RecordEquals(State(), obj.State())
    {
      if obj == this {
        EqualReflexive(Obj(State()));
        return true;
      }
      if obj == null {
        return false;
      }
      if obj.Size() != Size() {
        return false;
      }
      var a, b := State(), obj.State();
      var remaining := KeySet(a);
      while remaining != {}
        invariant remaining <= KeySet(a)
        invariant forall k | k in KeySet(a) - remaining :: FieldMatches(a, b, k)
        decreases remaining
      {
        var key :| key in remaining;
        if key !in b.fields {
          assert !FieldMatches(a, b, key);
          return false;
        }
        var left := Get(a, key);
        var right := Get(b, key);
        remaining := remaining - {key};
        if left.Null? && right.Null? {
          continue;
        }
        if left.Null? || right.Null? || KindOf(left) != KindOf(right) || !Equal(left, right) {
          assert !FieldMatches(a, b, key);
          return false;
        }
      }
      assert Keys() - {} == Keys();
      return true;
    }

    /**
     * hashCode(): 0xC0FFEE plus hashOf (each value's hashCode()) of every
     * non-null value plus size(), in Java int arithmetic.
     */
    method HashCode(hashOf: Value -> int) returns (h: int)
      requires Valid()
      ensures h == Values.HashCode(State(), hashOf)
    {
      var st := State();
      var hash := 0xC0FFEE;
      var remaining := KeySet(st);
      HashStart(st, hashOf);
      while remaining != {}
        invariant remaining <= KeySet(st)
        invariant hash == Wrap32(0xC0FFEE + HashSum(st, KeySet(st) - remaining, hashOf))
        decreases remaining
      {
        var key :| key in remaining;
        HashLoopStep(st, remaining, key, hashOf, hash);
        var value := Get(st, key);
        if !value.Null? {
          hash := Wrap32(hash + hashOf(value));
        }
        remaining := remaining - {key};
      }
      HashFinish(st, hashOf, hash);
      h := Wrap32(hash + |fields|);
    }
  }
}
