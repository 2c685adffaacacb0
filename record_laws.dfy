/**
 * What the DivirganceRecord operations promise, proved on the record state:
 * how put, remove, putAll and clear treat the ordered key list, the strict
 * equality and its agreement with hashCode, and how the copy constructor
 * breaks the ordering invariant.
 */
module RecordLaws {
  import opened Base
  import opened Values

  // ---------------------------------------------------------------------------
  // put

  /** put of an absent key appends it to the ordered key list and returns null. */
  lemma PutAbsentAppends(r: Rec, key: Text, v: Value)
    requires Consistent(r) && r.ordered && key !in r.fields
    ensures Put(r, key, v).orderedKeys == r.orderedKeys + [key]
    ensures |Put(r, key, v).fields| == |r.fields| + 1
    ensures Get(r, key) == Null && Get(Put(r, key, v), key) == v
  {
    assert key !in KeySet(r);
  }

  /** put of a present key keeps its position and the size, and returns the old value. */
  lemma PutPresentReplaces(r: Rec, key: Text, v: Value)
    requires Consistent(r) && key in r.fields
    ensures Put(r, key, v).orderedKeys == r.orderedKeys
    ensures |Put(r, key, v).fields| == |r.fields|
    ensures Get(r, key) == r.fields[key] && Get(Put(r, key, v), key) == v
  {
    assert key in KeySet(r);
  }

  // ---------------------------------------------------------------------------
  // remove

  lemma {:induction false} RemoveFirstAt(s: seq<Text>, key: Text, i: nat)
    requires NoDuplicates(s) && i < |s| && s[i] == key
    ensures RemoveFirst(s, key) == s[..i] + s[i + 1..]
  {
    if i > 0 {
      RemoveFirstAt(s[1..], key, i - 1);
      assert s[1..][..i - 1] + s[1..][i..] == s[1..i] + s[i + 1..];
      assert [s[0]] + s[1..i] == s[..i];
    }
  }

  /** Removing index i from a duplicate-free sequence. */
  lemma DropAtFacts(s: seq<Text>, i: nat)
    requires NoDuplicates(s) && i < |s|
    ensures NoDuplicates(s[..i] + s[i + 1..])
    ensures forall k :: k in s[..i] + s[i + 1..] <==> k in s && k != s[i]
  {
    var t := s[..i] + s[i + 1..];
    assert forall a | 0 <= a < |t| :: t[a] == s[if a < i then a else a + 1];
    forall k | k in s && k != s[i] ensures k in t {
      var j :| 0 <= j < |s| && s[j] == k;
      assert k == t[if j < i then j else j - 1];
    }
  }

  lemma RemoveFirstMembers(s: seq<Text>, key: Text)
    requires NoDuplicates(s)
    ensures NoDuplicates(RemoveFirst(s, key))
    ensures forall k :: k in RemoveFirst(s, key) <==> k in s && k != key
  {
    if key in s {
      var i :| 0 <= i < |s| && s[i] == key;
      RemoveFirstAt(s, key, i);
      DropAtFacts(s, i);
    }
  }

  /**
   * remove deletes the key from the map and from the ordered key list, and
   * keeps the record consistent.
   */
  lemma RemoveDeletes(r: Rec, key: Text)
    requires Consistent(r)
    ensures Consistent(Remove(r, key))
    ensures key !in Remove(r, key).fields && key !in KeySet(Remove(r, key))
    ensures |Remove(r, key).fields| == if key in r.fields then |r.fields| - 1 else |r.fields|
  {
    RemoveFirstMembers(r.orderedKeys, key);
    var r' := Remove(r, key);
    assert KeySet(r') == r'.fields.Keys by {
      if r.ordered {
        assert forall k :: k in r'.orderedKeys <==> k in r.orderedKeys && k != key;
      }
    }
  }

  /** remove keeps the relative order of the other keys. */
  lemma RemoveKeepsOrder(r: Rec, key: Text, i: nat)
    requires Sound(r) && r.ordered && i < |r.orderedKeys| && r.orderedKeys[i] == key
    ensures Remove(r, key).orderedKeys == r.orderedKeys[..i] + r.orderedKeys[i + 1..]
  {
    RemoveFirstAt(r.orderedKeys, key, i);
  }

  // ---------------------------------------------------------------------------
  // putAll and clear

  lemma {:induction false} AppendNewFacts(keys: seq<Text>, order: seq<Text>)
    requires NoDuplicates(keys)
    ensures NoDuplicates(AppendNew(keys, order))
    ensures |AppendNew(keys, order)| >= |keys| && AppendNew(keys, order)[..|keys|] == keys
    ensures forall k :: k in AppendNew(keys, order) <==> k in keys || k in order
    decreases order
  {
    if order != [] {
      var next := if order[0] in keys then keys else keys + [order[0]];
      AppendNewFacts(next, order[1..]);
      assert next[..|keys|] == keys;
      assert AppendNew(keys, order)[..|keys|] == AppendNew(keys, order)[..|next|][..|keys|];
      assert order == [order[0]] + order[1..];
    }
  }

  /**
   * putAll keeps the existing ordered keys as a prefix, appends the new ones,
   * and keeps the record consistent when the argument's keySet() is its key set.
   */
  lemma PutAllPreserves(r: Rec, order: seq<Text>, entries: map<Text, Value>)
    requires Consistent(r)
    requires NoDuplicates(order) && (forall k :: k in order <==> k in entries)
    ensures Consistent(PutAll(r, order, entries))
    ensures r.ordered ==> |PutAll(r, order, entries).orderedKeys| >= |r.orderedKeys|
    ensures r.ordered ==> PutAll(r, order, entries).orderedKeys[..|r.orderedKeys|] == r.orderedKeys
  {
    AppendNewFacts(r.orderedKeys, order);
  }

  /** clear leaves size() == 0 and an empty keySet(). */
  lemma ClearEmpties(r: Rec)
    ensures |Clear(r).fields| == 0 && KeySet(Clear(r)) == {}
  {
  }

  // ---------------------------------------------------------------------------
  // The copy constructor

  /**
   * Copying a plain map yields an ordered record whose keySet() is empty
   * although size() is not: the ordering invariant is broken.
   */
  lemma CopyOfMapBreaksOrdering(m: map<Text, Value>)
    requires |m| > 0
    ensures CopyOf(FromMap(m)).ordered && KeySet(CopyOf(FromMap(m))) == {}
    ensures |CopyOf(FromMap(m)).fields| > 0
    ensures !Consistent(CopyOf(FromMap(m)))
  {
    var k :| k in m;
    assert k in CopyOf(FromMap(m)).fields.Keys;
  }

  /** Copying an unordered DivirganceRecord loses its keys the same way. */
  lemma CopyOfUnorderedBreaksOrdering(o: Rec)
    requires Sound(o) && !o.ordered && |o.fields| > 0
    ensures KeySet(CopyOf(FromRecord(o))) == {} && !Consistent(CopyOf(FromRecord(o)))
  {
    var k :| k in o.fields;
    assert k in CopyOf(FromRecord(o)).fields.Keys;
  }

  /** Copying an ordered DivirganceRecord keeps its order and its consistency. */
  lemma CopyOfOrderedKeepsOrder(o: Rec)
    requires Consistent(o) && o.ordered
    ensures CopyOf(FromRecord(o)).orderedKeys == o.orderedKeys && Consistent(CopyOf(FromRecord(o)))
  {
  }

  /**
   * Since equals iterates keySet(), such a broken copy equals every record of
   * the same size.
   */
  lemma BrokenCopyEqualsAnySameSize(m: map<Text, Value>, b: Rec)
    requires |b.fields| == |m|
    ensures RecordEquals(CopyOf(FromMap(m)), b)
  {
  }

  // ---------------------------------------------------------------------------
  // Equality

  /** Every record nested in v is Sound. */
  ghost predicate DeepSound(v: Value)
  {
    match v
    case Obj(a) => Sound(a) && forall k | k in a.fields :: DeepSound(a.fields[k])
    case Arr(xs) => forall i | 0 <= i < |xs| :: DeepSound(xs[i])
    case _ => true
  }

  /** Every record nested in v is Consistent: its keySet() is exactly its map's keys. */
  ghost predicate DeepConsistent(v: Value)
  {
    match v
    case Obj(a) => Consistent(a) && forall k | k in a.fields :: DeepConsistent(a.fields[k])
    case Arr(xs) => forall i | 0 <= i < |xs| :: DeepConsistent(xs[i])
    case _ => true
  }

  /** A value whose records are all consistent has only sound records. */
  lemma {:induction false} DeepConsistentIsSound(v: Value)
    requires DeepConsistent(v)
    ensures DeepSound(v)
    decreases v
  {
    match v
    case Obj(a) =>
      forall k | k in a.fields ensures DeepSound(a.fields[k]) {
        DeepConsistentIsSound(a.fields[k]);
      }
    case Arr(xs) =>
      forall i | 0 <= i < |xs| ensures DeepSound(xs[i]) {
        DeepConsistentIsSound(xs[i]);
      }
    case _ =>
  }

  /** equals is reflexive on values whose records are sound. */
  lemma {:induction false} EqualReflexive(v: Value)
    requires DeepSound(v)
    ensures Equal(v, v) && StrictlyEqual(v, v)
    decreases v
  {
    match v
    case Obj(a) =>
      forall k | k in KeySet(a)
        ensures k in a.fields && StrictlyEqual(a.fields[k], a.fields[k])
      {
        EqualReflexive(a.fields[k]);
      }
    case Arr(xs) =>
      forall i | 0 <= i < |xs| && !xs[i].Null? ensures Equal(xs[i], xs[i]) {
        EqualReflexive(xs[i]);
      }
    case _ =>
  }

  lemma SubsetOfSameSize(a: set<Text>, b: set<Text>)
    requires a <= b && |a| == |b|
    ensures a == b
  {
    assert |b - a| == |b| - |a|;
  }

  /**
   * For consistent records, equals holds exactly when both have the same keys
   * and every key maps to strictly equal values (both null, or same class and equal).
   */
  lemma EqualsIff(a: Rec, b: Rec)
    requires Consistent(a) && Consistent(b)
    ensures RecordEquals(a, b) <==>
              && a.fields.Keys == b.fields.Keys
              && forall k | k in a.fields :: StrictlyEqual(a.fields[k], b.fields[k])
  {
    if RecordEquals(a, b) {
      forall k | k in a.fields ensures k in b.fields && StrictlyEqual(a.fields[k], b.fields[k]) {
        assert k in KeySet(a) && FieldMatches(a, b, k);
      }
      SubsetOfSameSize(a.fields.Keys, b.fields.Keys);
    }
    if && a.fields.Keys == b.fields.Keys
       && forall k | k in a.fields :: StrictlyEqual(a.fields[k], b.fields[k])
    {
      assert |a.fields| == |a.fields.Keys| == |b.fields.Keys| == |b.fields|;
      forall k | k in KeySet(a) ensures FieldMatches(a, b, k) {
      }
    }
  }

  /** Key order does not matter to equals: records with the same map are equal. */
  lemma EqualsIgnoresOrder(a: Rec, b: Rec)
    requires Consistent(a) && Consistent(b) && a.fields == b.fields
    requires forall k | k in a.fields :: DeepSound(a.fields[k])
    ensures RecordEquals(a, b) && RecordEquals(b, a)
  {
    forall k | k in a.fields ensures StrictlyEqual(a.fields[k], b.fields[k]) {
      EqualReflexive(a.fields[k]);
    }
    EqualsIff(a, b);
    EqualsIff(b, a);
  }

  /** Values of different classes are never strictly equal, e.g. Integer 5 and Long 5. */
  lemma DifferentClassesDiffer(l: Value, r: Value)
    requires !l.Null? && !r.Null? && KindOf(l) != KindOf(r)
    ensures !StrictlyEqual(l, r)
  {
  }

  // ---------------------------------------------------------------------------
  // hashCode

  lemma {:induction false} HashSumRemove(r: Rec, ks: set<Text>, k: Text, hashOf: Value -> int)
    requires k in ks
    ensures HashSum(r, ks, hashOf) == HashTerm(r, k, hashOf) + HashSum(r, ks - {k}, hashOf)
    decreases ks
  {
    var j :| j in ks && HashSum(r, ks, hashOf) == HashTerm(r, j, hashOf) + HashSum(r, ks - {j}, hashOf);
    if j != k {
      HashSumRemove(r, ks - {j}, k, hashOf);
      HashSumRemove(r, ks - {k}, j, hashOf);
      assert ks - {j} - {k} == ks - {k} - {j};
    }
  }

  lemma {:induction false} HashSumCongruent(a: Rec, b: Rec, ks: set<Text>, hashOf: Value -> int)
    requires forall k | k in ks :: HashTerm(a, k, hashOf) == HashTerm(b, k, hashOf)
    ensures HashSum(a, ks, hashOf) == HashSum(b, ks, hashOf)
    decreases ks
  {
    if ks != {} {
      var k :| k in ks;
      HashSumRemove(a, ks, k, hashOf);
      HashSumRemove(b, ks, k, hashOf);
      HashSumCongruent(a, b, ks - {k}, hashOf);
    }
  }

  /** A hashCode for the values that agrees with their strict equality. */
  ghost predicate HashRespectsEquality(hashOf: Value -> int)
  {
    forall x, y :: StrictlyEqual(x, y) ==> hashOf(x) == hashOf(y)
  }

  /** Equal consistent records have equal hash codes. */
  lemma EqualsImpliesSameHash(a: Rec, b: Rec, hashOf: Value -> int)
    requires Consistent(a) && Consistent(b) && RecordEquals(a, b)
    requires HashRespectsEquality(hashOf)
    ensures HashCode(a, hashOf) == HashCode(b, hashOf)
  {
    EqualsIff(a, b);
    forall k | k in KeySet(a) ensures HashTerm(a, k, hashOf) == HashTerm(b, k, hashOf) {
      assert StrictlyEqual(a.fields[k], b.fields[k]);
    }
    HashSumCongruent(a, b, KeySet(a), hashOf);
  }

  /** hashCode does not depend on key order. */
  lemma HashIgnoresOrder(a: Rec, b: Rec, hashOf: Value -> int)
    requires Consistent(a) && Consistent(b) && a.fields == b.fields
    ensures HashCode(a, hashOf) == HashCode(b, hashOf)
  {
    HashSumCongruent(a, b, KeySet(a), hashOf);
  }

  /** Before the hashCode loop no key is done and the hash is the starting constant. */
  lemma HashStart(r: Rec, hashOf: Value -> int)
    ensures 0xC0FFEE == Wrap32(0xC0FFEE + HashSum(r, KeySet(r) - KeySet(r), hashOf))
  {
    assert KeySet(r) - KeySet(r) == {};
  }

  /** One iteration of the hashCode loop keeps its invariant. */
  lemma HashLoopStep(r: Rec, remaining: set<Text>, key: Text, hashOf: Value -> int, hash: int)
    requires key in remaining && remaining <= KeySet(r)
    requires hash == Wrap32(0xC0FFEE + HashSum(r, KeySet(r) - remaining, hashOf))
    ensures (if Get(r, key).Null? then hash else Wrap32(hash + hashOf(Get(r, key))))
            == Wrap32(0xC0FFEE + HashSum(r, KeySet(r) - (remaining - {key}), hashOf))
  {
    var done := KeySet(r) - remaining;
    assert KeySet(r) - (remaining - {key}) == done + {key};
    HashSumRemove(r, done + {key}, key, hashOf);
    assert done + {key} - {key} == done;
    WrapAdd(0xC0FFEE + HashSum(r, done, hashOf), HashTerm(r, key, hashOf));
  }

  /** After the hashCode loop, adding size() gives the record's hash code. */
  lemma HashFinish(r: Rec, hashOf: Value -> int, hash: int)
    requires hash == Wrap32(0xC0FFEE + HashSum(r, KeySet(r) - {}, hashOf))
    ensures Wrap32(hash + |r.fields|) == HashCode(r, hashOf)
  {
    assert KeySet(r) - {} == KeySet(r);
    WrapAdd(0xC0FFEE + HashSum(r, KeySet(r), hashOf), |r.fields|);
  }

  /** Adding in Java int arithmetic step by step is the same as wrapping the total. */
  lemma WrapAdd(x: int, y: int)
    ensures Wrap32(Wrap32(x) + y) == Wrap32(x + y)
  {
    var q := WrapOffset(x);
    assert Wrap32(x) + y == (x + y) - q * 0x1_0000_0000;
    WrapShift(x + y, q);
  }

  /** Wrap32 moves x by a whole number of 2^32 steps. */
  lemma {:induction false} WrapOffset(x: int) returns (q: int)
    ensures Wrap32(x) == x - q * 0x1_0000_0000
    decreases if x < -0x8000_0000 then -0x8000_0000 - x else if x < 0x8000_0000 then 0 else x
  {
    if x < -0x8000_0000 {
      var p := WrapOffset(x + 0x1_0000_0000);
      q := p - 1;
    } else if x < 0x8000_0000 {
      q := 0;
    } else {
      var p := WrapOffset(x - 0x1_0000_0000);
      q := p + 1;
    }
  }

  /** Shifting by whole multiples of 2^32 does not change the wrapped value. */
  lemma {:induction false} WrapShift(z: int, q: int)
    ensures Wrap32(z - q * 0x1_0000_0000) == Wrap32(z)
    decreases if q < 0 then -q else q
  {
    if q > 0 {
      WrapShift(z, q - 1);
      WrapStep(z - q * 0x1_0000_0000);
      assert z - q * 0x1_0000_0000 + 0x1_0000_0000 == z - (q - 1) * 0x1_0000_0000;
    } else if q < 0 {
      WrapShift(z, q + 1);
      WrapStep(z - (q + 1) * 0x1_0000_0000);
      assert z - (q + 1) * 0x1_0000_0000 + 0x1_0000_0000 == z - q * 0x1_0000_0000;
    }
  }

  /** One step of 2^32 does not change the wrapped value. */
  lemma WrapStep(z: int)
    ensures Wrap32(z) == Wrap32(z + 0x1_0000_0000)
  {
  }

}
