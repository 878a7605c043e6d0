/**
 * The garbage-collected objects of `src/lib.rs` (`Array`, `Dict`,
 * `Matrix`, `Closure`, `UpValueObject`) and the heap that holds them.
 *
 * The Rust code keeps every object in a `Box` owned by `Vm::objects` and
 * refers to it through raw pointers; the model keeps a map from addresses
 * to objects, and freeing an object is removing its address. Every object
 * carries the `marked` flag of the `GCObject` trait.
 */
module Heap {
  import opened Wrappers
  import opened Bytecode

  /** An upvalue object: still pointing at an absolute stack slot
      (`UpValue::Ref`), or holding its own copy of the value. */
  datatype UpValue = Closed(value: Value) | OpenRef(slot: nat)

  /** Where a closure's chunk lives: the program's top chunk, or a
      constant of another chunk. This path is the chunk's address in the
      Rust code, since chunks are never moved or mutated once built. */
  datatype ChunkPtr = Top | Const(parent: ChunkPtr, index: nat)

  /** A dictionary as an association list with distinct keys (a
      `HashMap<String, Value>`; its iteration order is unspecified, and the
      model fixes one). */
  type Entries = seq<(string, Value)>

  datatype Obj =
    | ArrayObj(marked: bool, elems: seq<Value>)
    | DictObj(marked: bool, entries: Entries)
    | MatrixObj(marked: bool, rows: nat, cols: nat, data: seq<real>)
    | ClosureObj(marked: bool, site: ChunkPtr, proto: Chunk, upvalues: seq<Ref>)
    | UpValueObj(marked: bool, upvalue: UpValue)

  type Objects = map<Ref, Obj>

  // ---------------------------------------------------------------------
  // The `GCObject` header: `mark`, `demark`, `is_marked`.
  // ---------------------------------------------------------------------

  /** What an object holds, with the mark flag cleared. */
  function Contents(o: Obj): Obj {
    o.(marked := false)
  }

  /** `mark`: set the flag, keep everything else. */
  function Mark(o: Obj): (r: Obj)
    ensures r.marked && Contents(r) == Contents(o)
  {
    o.(marked := true)
  }

  /** `demark`: clear the flag, keep everything else. */
  function Demark(o: Obj): (r: Obj)
    ensures !r.marked && Contents(r) == Contents(o)
  {
    o.(marked := false)
  }

  /** Lemma: the two flag operations undo each other on the contents, and
      each is idempotent. */
  lemma MarkDemarkFlags(o: Obj)
    ensures Demark(Mark(o)) == Contents(o)
    ensures Mark(Mark(o)) == Mark(o) && Demark(Demark(o)) == Demark(o)
    ensures o.marked ==> Mark(o) == o
    ensures !o.marked ==> Demark(o) == o
  {
  }

  // ---------------------------------------------------------------------
  // Dictionaries.
  // ---------------------------------------------------------------------

  /** No key occurs twice. */
  predicate KeysUnique(e: Entries) {
    forall i, j :: 0 <= i < j < |e| ==> e[i].0 != e[j].0
  }

  /** Position of key `k`, if present (the first one, should it occur
      twice). */
  function KeyIndex(e: Entries, k: string): (r: Option<nat>)
    ensures r.Some? ==> r.value < |e|
  {
    if |e| == 0 then None
    else if e[0].0 == k then Some(0)
    else match KeyIndex(e[1..], k)
      case None => None
      case Some(i) => Some(i + 1)
  }

  /** Lemma: `KeyIndex` finds the first entry holding the key, and finds
      nothing exactly when no entry holds it. */
  lemma {:induction false} KeyIndexFindsFirst(e: Entries, k: string)
    ensures KeyIndex(e, k).Some? ==> e[KeyIndex(e, k).value].0 == k
    ensures KeyIndex(e, k).Some? ==> forall i :: 0 <= i < KeyIndex(e, k).value ==> e[i].0 != k
    ensures KeyIndex(e, k).None? ==> forall i :: 0 <= i < |e| ==> e[i].0 != k
    decreases |e|
  {
    if |e| > 0 && e[0].0 != k {
      KeyIndexFindsFirst(e[1..], k);
      assert forall i :: 1 <= i < |e| ==> e[i] == e[1..][i - 1];
    }
  }

  /** A position holding the key with no earlier occurrence is the one
      `KeyIndex` finds. */
  lemma KeyIndexAt(e: Entries, k: string, i: nat)
    requires i < |e| && e[i].0 == k && forall j :: 0 <= j < i ==> e[j].0 != k
    ensures KeyIndex(e, k) == Some(i)
  {
    KeyIndexFindsFirst(e, k);
  }

  /** No entry holding the key means `KeyIndex` finds nothing. */
  lemma KeyIndexAbsent(e: Entries, k: string)
    requires forall j :: 0 <= j < |e| ==> e[j].0 != k
    ensures KeyIndex(e, k).None?
  {
    KeyIndexFindsFirst(e, k);
  }

  /** `HashMap::get`. */
  function Lookup(e: Entries, k: string): Option<Value> {
    match KeyIndex(e, k)
    case None => None
    case Some(i) => Some(e[i].1)
  }

  /** Lemma: a key is found exactly when some entry holds it, and then
      with the value of its first entry. */
  lemma LookupFindsFirst(e: Entries, k: string)
    ensures Lookup(e, k).Some? <==> exists i :: 0 <= i < |e| && e[i].0 == k
    ensures Lookup(e, k).Some? ==>
      exists i :: 0 <= i < |e| && e[i].0 == k && Lookup(e, k).value == e[i].1 && (forall j :: 0 <= j < i ==> e[j].0 != k)
  {
    KeyIndexFindsFirst(e, k);
  }

  /** `HashMap::insert` (also the `get_mut`-then-assign path of
      `SetCollection`): overwrite the value of an existing key, or add the
      key. */
  function Insert(e: Entries, k: string, v: Value): (r: Entries)
    ensures |r| == |e| || |r| == |e| + 1
  {
    match KeyIndex(e, k)
    case None => e + [(k, v)]
    case Some(i) => e[i := (k, v)]
  }

  /** Lemma: after inserting, the key maps to the new value, every other
      key keeps its value, keys stay distinct, and the entry count grows
      exactly when the key was new. */
  lemma InsertLookup(e: Entries, k: string, v: Value, k2: string)
    requires KeysUnique(e)
    ensures KeysUnique(Insert(e, k, v))
    ensures Lookup(Insert(e, k, v), k) == Some(v)
    ensures k2 != k ==> Lookup(Insert(e, k, v), k2) == Lookup(e, k2)
    ensures |Insert(e, k, v)| == (if Lookup(e, k).Some? then |e| else |e| + 1)
  {
    var r := Insert(e, k, v);
    KeyIndexFindsFirst(e, k);
    match KeyIndex(e, k)
    case None =>
      assert r[|e|] == (k, v);
      KeyIndexUnique(r, k, |e|);
      if k2 != k {
        KeyIndexAppend(e, k, v, k2);
      }
    case Some(i) =>
      KeyIndexUnique(r, k, i);
      if k2 != k {
        KeyIndexUpdate(e, i, k, v, k2);
      }
  }

  /** In a list with distinct keys, the position of a key is the only one
      holding it. */
  lemma KeyIndexUnique(e: Entries, k: string, i: nat)
    requires KeysUnique(e) && i < |e| && e[i].0 == k
    ensures KeyIndex(e, k) == Some(i)
  {
    KeyIndexAt(e, k, i);
  }

  lemma KeyIndexAppend(e: Entries, k: string, v: Value, k2: string)
    requires k2 != k
    ensures Lookup(e + [(k, v)], k2) == Lookup(e, k2)
  {
    LookupConcat(e, [(k, v)], k2);
    LookupCons([(k, v)], k2);
  }

  lemma KeyIndexUpdate(e: Entries, i: nat, k: string, v: Value, k2: string)
    requires KeysUnique(e) && i < |e| && e[i].0 == k && k2 != k
    ensures Lookup(e[i := (k, v)], k2) == Lookup(e, k2)
  {
    KeyIndexSameKeys(e, e[i := (k, v)], k2);
    KeyIndexFindsFirst(e, k2);
  }

  /** Looking up in a non-empty list: the head entry, or the rest. */
  lemma LookupCons(e: Entries, k: string)
    requires |e| > 0
    ensures Lookup(e, k) == if e[0].0 == k then Some(e[0].1) else Lookup(e[1..], k)
  {
  }

  /** Lemma: a lookup in two lists put together finds the first list's
      entry if it has one, and the second list's otherwise. */
  lemma {:induction false} LookupConcat(a: Entries, b: Entries, k: string)
    ensures Lookup(a + b, k) == if Lookup(a, k).Some? then Lookup(a, k) else Lookup(b, k)
    decreases |a|
  {
    if |a| == 0 {
      assert a + b == b;
    } else {
      LookupConcat(a[1..], b, k);
      assert (a + b)[1..] == a[1..] + b;
      LookupCons(a + b, k);
      LookupCons(a, k);
    }
  }

  /** Lemma: after inserting, the key reads the new value and every other
      key reads as before (with or without distinct keys). */
  lemma InsertReads(e: Entries, k: string, v: Value, q: string)
    ensures Lookup(Insert(e, k, v), q) == if q == k then Some(v) else Lookup(e, q)
  {
    KeyIndexFindsFirst(e, k);
    match KeyIndex(e, k)
    case None =>
      LookupConcat(e, [(k, v)], q);
      LookupCons([(k, v)], q);
    case Some(i) =>
      KeyIndexSameKeys(e, e[i := (k, v)], q);
      KeyIndexFindsFirst(e, q);
  }

  /** Two lists with the same keys in the same places find a key at the
      same position. */
  lemma KeyIndexSameKeys(e: Entries, f: Entries, q: string)
    requires |e| == |f| && forall j :: 0 <= j < |e| ==> e[j].0 == f[j].0
    ensures KeyIndex(e, q) == KeyIndex(f, q)
  {
    KeyIndexFindsFirst(e, q);
    KeyIndexFindsFirst(f, q);
  }

  /** The values of a dictionary in its iteration order. */
  function DictValues(e: Entries): (vs: seq<Value>)
    ensures |vs| == |e| && forall i :: 0 <= i < |e| ==> vs[i] == e[i].1
  {
    seq(|e|, i requires 0 <= i < |e| => e[i].1)
  }

  // ---------------------------------------------------------------------
  // `Closure`'s hand-written `PartialEq`.
  // ---------------------------------------------------------------------

  /** Two closures are equal when their chunk pointers are: the captured
      upvalues and the mark flag play no part. */
  predicate ClosureEq(a: Obj, b: Obj)
    requires a.ClosureObj? && b.ClosureObj?
  {
    a.site == b.site
  }

  /** Lemma: closure equality is an equivalence, and two closures of one
      function compare equal whatever they capture. */
  lemma ClosureEqIgnoresCaptures(a: Obj, b: Obj, c: Obj)
    requires a.ClosureObj? && b.ClosureObj? && c.ClosureObj?
    ensures ClosureEq(a, a)
    ensures ClosureEq(a, b) ==> ClosureEq(b, a)
    ensures ClosureEq(a, b) && ClosureEq(b, c) ==> ClosureEq(a, c)
    ensures a.site == b.site ==> ClosureEq(a, b.(upvalues := [], marked := !b.marked))
  {
  }
}
