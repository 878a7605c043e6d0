/**
 * The string interning pool of `src/interned_string.rs`. The pool keeps a
 * list of pointers to entries, each a string with a reference count; an
 * `IString` handle is a pointer to an entry, cloning a handle counts it up,
 * dropping one counts it down, and two handles are equal when they point
 * at the same entry.
 *
 * The model keeps the entries in a map from addresses to entries, with the
 * pool's list of addresses beside it and the next fresh address; freeing
 * an entry is removing its address. Reference counts are `nat`: the `usize`
 * never wraps here, and counting down from 0 is a panic (`None`).
 */
module StringPool {
  import opened Wrappers

  /** `StringPoolEntry`. */
  datatype Entry = Entry(data: string, refCount: nat)

  /** `StringPool`: the list `data` of entry pointers, with the entries
      they point at and the next fresh address. */
  datatype Pool = Pool(order: seq<nat>, entries: map<nat, Entry>, next: nat)

  /** `IString`: a pointer to an entry. */
  datatype IString = IString(ptr: nat)

  /** `StringPool::new()`. */
  function NewPool(): (p: Pool)
    ensures Valid(p) && |p.order| == 0
  {
    Pool([], map[], 0)
  }

  /** No address is listed twice. */
  predicate NoDup(order: seq<nat>) {
    forall i, j :: 0 <= i < j < |order| ==> order[i] != order[j]
  }

  /** The pool invariant: the list names exactly the live entries, once
      each, below the next fresh address, and no two live entries hold the
      same string. */
  predicate Valid(p: Pool) {
    && NoDup(p.order)
    && (forall q :: q in p.order ==> q in p.entries)
    && (forall q :: q in p.entries ==> q in p.order)
    && (forall q :: q in p.entries ==> q < p.next)
    && (forall q1, q2 :: q1 in p.entries && q2 in p.entries && q1 != q2 ==> p.entries[q1].data != p.entries[q2].data)
  }

  /** The first position from `from` on whose entry holds `s` (the search
      loop of `creat_istring`). */
  function Find(p: Pool, s: string, from: nat): (r: Option<nat>)
    requires forall q :: q in p.order ==> q in p.entries
    requires from <= |p.order|
    ensures r.Some? ==> from <= r.value < |p.order| && p.entries[p.order[r.value]].data == s
    decreases |p.order| - from
  {
    if from == |p.order| then None
    else if p.entries[p.order[from]].data == s then Some(from)
    else Find(p, s, from + 1)
  }

  /** Lemma: the search fails exactly when no listed entry from `from` on
      holds the string. */
  lemma {:induction false} FindNone(p: Pool, s: string, from: nat)
    requires forall q :: q in p.order ==> q in p.entries
    requires from <= |p.order|
    ensures Find(p, s, from).None? <==> forall i :: from <= i < |p.order| ==> p.entries[p.order[i]].data != s
    decreases |p.order| - from
  {
    if from < |p.order| && p.entries[p.order[from]].data != s {
      FindNone(p, s, from + 1);
    }
  }

  /** The addresses whose entries still count some handle, in list order
      (the clean-up loop and `retain`). */
  function Retain(order: seq<nat>, entries: map<nat, Entry>): (r: seq<nat>)
    requires forall q :: q in order ==> q in entries
    ensures |r| <= |order|
  {
    if |order| == 0 then []
    else (if entries[order[0]].refCount > 0 then [order[0]] else []) + Retain(order[1..], entries)
  }

  /** Lemma: clean-up keeps exactly the listed addresses whose count is
      not 0, each once if it was listed once. */
  lemma {:induction false} RetainKeeps(order: seq<nat>, entries: map<nat, Entry>)
    requires forall q :: q in order ==> q in entries
    ensures forall q :: q in Retain(order, entries) <==> q in order && entries[q].refCount > 0
    ensures NoDup(order) ==> NoDup(Retain(order, entries))
  {
    if |order| > 0 {
      var tail := order[1..];
      RetainKeeps(tail, entries);
      assert forall q :: q in order <==> q == order[0] || q in tail;
      var head: seq<nat> := if entries[order[0]].refCount > 0 then [order[0]] else [];
      var r := Retain(order, entries);
      assert r == head + Retain(tail, entries);
      if NoDup(order) {
        assert NoDup(tail) by {
          forall i, j | 0 <= i < j < |tail| ensures tail[i] != tail[j] {
            assert tail[i] == order[i + 1] && tail[j] == order[j + 1];
          }
        }
        assert order[0] !in tail by {
          forall i | 0 <= i < |tail| ensures tail[i] != order[0] {
            assert tail[i] == order[i + 1];
          }
        }
        assert order[0] !in Retain(tail, entries);
        forall i, j | 0 <= i < j < |r| ensures r[i] != r[j] {
          if |head| == 1 && i == 0 {
            assert r[j] == Retain(tail, entries)[j - 1];
          } else {
            assert r[i] == Retain(tail, entries)[i - |head|];
            assert r[j] == Retain(tail, entries)[j - |head|];
          }
        }
      }
    }
  }

  /** `creat_istring`: a listed entry holding the string counts one more
      handle and is returned, with no clean-up; otherwise a new entry with
      count 1 is listed last, every entry whose count is 0 is freed and
      unlisted, and the new entry is returned. */
  function Intern(p: Pool, s: string): (r: (Pool, IString))
    requires Valid(p)
  {
    match Find(p, s, 0)
    case Some(i) =>
      var q := p.order[i];
      var e := p.entries[q];
      (p.(entries := p.entries[q := e.(refCount := e.refCount + 1)]), IString(q))
    case None => AddFresh(p, s)
  }

  /** The path of `creat_istring` for a string the pool does not hold: a
      new entry with count 1 at a fresh address is listed last, then every
      listed entry whose count is 0 is freed and unlisted. */
  function AddFresh(p: Pool, s: string): (r: (Pool, IString))
    requires forall q :: q in p.order ==> q in p.entries
  {
    var q := p.next;
    var order := p.order + [q];
    var entries := p.entries[q := Entry(s, 1)];
    var kept := Retain(order, entries);
    (Pool(kept, map q' | q' in entries && q' in kept :: entries[q'], q + 1), IString(q))
  }

  /** The string a handle stands for (`get_inner`); `None` for a pointer
      to no live entry. */
  function Inner(p: Pool, h: IString): (r: Option<string>)
    ensures r.Some? <==> h.ptr in p.entries
  {
    if h.ptr in p.entries then Some(p.entries[h.ptr].data) else None
  }

  /** `IString::clone`: the entry counts one more handle. */
  function Clone(p: Pool, h: IString): (r: Option<(Pool, IString)>)
    ensures r.Some? <==> h.ptr in p.entries
  {
    if h.ptr !in p.entries then None
    else
      var e := p.entries[h.ptr];
      Some((p.(entries := p.entries[h.ptr := e.(refCount := e.refCount + 1)]), h))
  }

  /** `IString::drop`: the entry counts one handle less; counting down
      from 0 underflows. */
  function DropHandle(p: Pool, h: IString): (r: Option<Pool>)
    ensures r.Some? <==> h.ptr in p.entries && p.entries[h.ptr].refCount > 0
  {
    if h.ptr !in p.entries || p.entries[h.ptr].refCount == 0 then None
    else
      var e := p.entries[h.ptr];
      Some(p.(entries := p.entries[h.ptr := e.(refCount := e.refCount - 1)]))
  }

  /** `IString`'s `PartialEq`: the same entry. */
  predicate Same(a: IString, b: IString) {
    a.ptr == b.ptr
  }

  // ---------------------------------------------------------------------
  // Properties.
  // ---------------------------------------------------------------------

  /** Lemma: interning a string the pool already holds returns its entry,
      counts one more handle there, and changes nothing else: the list is
      untouched and no entry is freed. */
  lemma InternExisting(p: Pool, s: string, q: nat)
    requires Valid(p) && q in p.entries && p.entries[q].data == s
    ensures var (p1, h) := Intern(p, s);
      && h == IString(q)
      && p1.order == p.order && p1.next == p.next
      && p1.entries.Keys == p.entries.Keys
      && p1.entries[q] == p.entries[q].(refCount := p.entries[q].refCount + 1)
      && (forall q' :: q' in p.entries && q' != q ==> p1.entries[q'] == p.entries[q'])
  {
    FindNone(p, s, 0);
    var i := Find(p, s, 0).value;
    assert p.order[i] in p.entries;
  }

  /** Lemma: interning a string the pool does not hold creates an entry
      for it at a fresh address with count 1, which survives the clean-up
      and is listed last; every other entry survives exactly when its
      count is not 0, unchanged. */
  lemma InternNew(p: Pool, s: string)
    requires Valid(p) && forall q :: q in p.entries ==> p.entries[q].data != s
    ensures var (p1, h) := Intern(p, s);
      && h == IString(p.next) && p.next !in p.entries
      && h.ptr in p1.entries && p1.entries[h.ptr] == Entry(s, 1)
      && |p1.order| > 0 && p1.order[|p1.order| - 1] == h.ptr
      && (forall q :: q in p.entries ==> (q in p1.entries <==> p.entries[q].refCount > 0))
      && (forall q :: q in p1.entries && q != h.ptr ==> q in p.entries && p1.entries[q] == p.entries[q])
      && (forall q :: q in p1.entries ==> p1.entries[q].refCount > 0)
      && p1.next == p.next + 1
  {
    InternNewFresh(p, s);
    AddFreshEffect(p, s);
  }

  /** Interning a string no entry holds takes the fresh-entry path. */
  lemma InternNewFresh(p: Pool, s: string)
    requires Valid(p) && forall q :: q in p.entries ==> p.entries[q].data != s
    ensures Find(p, s, 0).None? && Intern(p, s) == AddFresh(p, s)
  {
    FindNone(p, s, 0);
    assert Find(p, s, 0).None? by {
      forall i | 0 <= i < |p.order| ensures p.entries[p.order[i]].data != s {
        assert p.order[i] in p.entries;
      }
    }
  }

  lemma AddFreshEffect(p: Pool, s: string)
    requires Valid(p)
    ensures var (p1, h) := AddFresh(p, s);
      && h == IString(p.next) && p.next !in p.entries
      && h.ptr in p1.entries && p1.entries[h.ptr] == Entry(s, 1)
      && |p1.order| > 0 && p1.order[|p1.order| - 1] == h.ptr
      && (forall q :: q in p.entries ==> (q in p1.entries <==> p.entries[q].refCount > 0))
      && (forall q :: q in p1.entries && q != h.ptr ==> q in p.entries && p1.entries[q] == p.entries[q])
      && (forall q :: q in p1.entries ==> p1.entries[q].refCount > 0)
      && p1.next == p.next + 1
  {
    var q := p.next;
    var order := p.order + [q];
    var entries := p.entries[q := Entry(s, 1)];
    assert forall x :: x in order <==> x in p.order || x == q;
    RetainKeeps(order, entries);
    RetainLast(order, entries);
  }

  /** The last listed address survives clean-up when its count is not 0,
      and stays last. */
  lemma {:induction false} RetainLast(order: seq<nat>, entries: map<nat, Entry>)
    requires forall q :: q in order ==> q in entries
    requires |order| > 0 && entries[order[|order| - 1]].refCount > 0
    ensures var r := Retain(order, entries); |r| > 0 && r[|r| - 1] == order[|order| - 1]
  {
    if |order| > 1 {
      assert order[1..][|order[1..]| - 1] == order[|order| - 1];
      RetainLast(order[1..], entries);
    }
  }

  /** Lemma: interning keeps the pool invariant, and the returned handle
      stands for the string. */
  lemma InternValid(p: Pool, s: string)
    requires Valid(p)
    ensures Valid(Intern(p, s).0)
    ensures Inner(Intern(p, s).0, Intern(p, s).1) == Some(s)
  {
    FindNone(p, s, 0);
    match Find(p, s, 0)
    case Some(i) =>
      assert p.order[i] in p.entries;
    case None =>
      assert forall x :: x in p.entries ==> p.entries[x].data != s by {
        forall x | x in p.entries ensures p.entries[x].data != s {
          var i :| 0 <= i < |p.order| && p.order[i] == x;
        }
      }
      AddFreshEffect(p, s);
      AddFreshValid(p, s);
  }

  /** Lemma: interning keeps every entry that still counts a handle, with
      its string, and the returned handle names an entry that counts it. */
  lemma InternKeepsLive(p: Pool, s: string)
    requires Valid(p)
    ensures var (p1, h) := Intern(p, s);
      && h.ptr in p1.entries && p1.entries[h.ptr].refCount > 0
      && forall q :: q in p.entries && p.entries[q].refCount > 0 ==>
           q in p1.entries && p1.entries[q].data == p.entries[q].data && p1.entries[q].refCount > 0
  {
    FindNone(p, s, 0);
    match Find(p, s, 0)
    case Some(i) =>
      assert p.order[i] in p.entries;
      InternExisting(p, s, p.order[i]);
    case None =>
      assert forall x :: x in p.entries ==> p.entries[x].data != s by {
        forall x | x in p.entries ensures p.entries[x].data != s {
          var i :| 0 <= i < |p.order| && p.order[i] == x;
        }
      }
      InternNew(p, s);
  }

  /** The fresh-entry path keeps the invariant when no entry holds the
      string. */
  lemma AddFreshValid(p: Pool, s: string)
    requires Valid(p) && forall x :: x in p.entries ==> p.entries[x].data != s
    ensures Valid(AddFresh(p, s).0)
  {
    var q := p.next;
    var order := p.order + [q];
    var entries := p.entries[q := Entry(s, 1)];
    assert forall x :: x in order <==> x in p.order || x == q;
    assert NoDup(order) by {
      forall i, j | 0 <= i < j < |order| ensures order[i] != order[j] {
        if j == |p.order| {
          assert order[i] in p.entries;
        }
      }
    }
    RetainKeeps(order, entries);
  }

  /** Lemma: interning the same string twice gives the same handle. */
  lemma InternTwiceSame(p: Pool, s: string)
    requires Valid(p)
    ensures Valid(Intern(p, s).0) && Same(Intern(p, s).1, Intern(Intern(p, s).0, s).1)
  {
    var (p1, h) := Intern(p, s);
    InternValid(p, s);
    InternExisting(p1, s, h.ptr);
  }

  /** Lemma: two handles to live entries of a valid pool are equal exactly
      when they stand for the same string. */
  lemma SameIffEqualContents(p: Pool, a: IString, b: IString)
    requires Valid(p) && a.ptr in p.entries && b.ptr in p.entries
    ensures Same(a, b) <==> Inner(p, a) == Inner(p, b)
  {
  }

  /** Lemma: cloning a handle counts one more handle on its entry and
      changes nothing else; dropping one counts one less; a clone
      followed by a drop restores the pool; both keep the invariant. */
  lemma CloneDropCounts(p: Pool, h: IString)
    requires Valid(p) && h.ptr in p.entries
    ensures var (p1, h1) := Clone(p, h).value;
      && Same(h1, h)
      && p1.order == p.order && p1.entries.Keys == p.entries.Keys
      && p1.entries[h.ptr].refCount == p.entries[h.ptr].refCount + 1
      && p1.entries[h.ptr].data == p.entries[h.ptr].data
      && (forall q :: q in p.entries && q != h.ptr ==> p1.entries[q] == p.entries[q])
      && Valid(p1)
      && DropHandle(p1, h1) == Some(p)
    ensures DropHandle(p, h).Some? ==>
      var p2 := DropHandle(p, h).value;
      && p2.order == p.order && p2.entries.Keys == p.entries.Keys
      && p2.entries[h.ptr].refCount == p.entries[h.ptr].refCount - 1
      && (forall q :: q in p.entries && q != h.ptr ==> p2.entries[q] == p.entries[q])
      && Valid(p2)
  {
    var (p1, h1) := Clone(p, h).value;
    assert DropHandle(p1, h1).value.entries == p.entries;
  }
}
