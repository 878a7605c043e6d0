/**
 * Mark-and-sweep collection: `mark_proc` and the `mark_children` methods
 * of `src/lib.rs`, and `Vm::run_gc` of `src/vm.rs`.
 *
 * Marking is written once, with a switch `traceErrors`: the code as
 * written (`false`) follows `Array`, `Dictionary`, `Closure` and `Matrix`
 * values but not `Error` values, which also point at a dictionary; the
 * repaired collector (`true`) follows those too. See README "Findings".
 */
module Gc {
  import opened Bytecode
  import opened Heap

  /** The addresses not yet marked. */
  function Unmarked(h: Objects): set<Ref> {
    set r | r in h && !h[r].marked
  }

  /** Whether `mark_proc` follows this value. */
  predicate Traced(v: Value, traceErrors: bool) {
    v.Array? || v.Dictionary? || v.Closure? || v.Matrix? || (traceErrors && v.Error?)
  }

  /** The address a traced value points at. */
  function Target(v: Value): Ref
    requires v.Array? || v.Dictionary? || v.Closure? || v.Matrix? || v.Error?
  {
    match v
    case Array(r) => r
    case Dictionary(r) => r
    case Closure(r) => r
    case Matrix(r) => r
    case Error(r) => r
  }

  /** The addresses among some values that marking follows. */
  function TracedRefs(vs: seq<Value>, traceErrors: bool): (rs: seq<Ref>)
    ensures forall c :: c in rs <==> exists i :: 0 <= i < |vs| && Traced(vs[i], traceErrors) && Target(vs[i]) == c
  {
    if |vs| == 0 then []
    else
      var rest := TracedRefs(vs[1..], traceErrors);
      assert forall i :: 1 <= i < |vs| ==> vs[i] == vs[1..][i - 1];
      if Traced(vs[0], traceErrors) then [Target(vs[0])] + rest else rest
  }

  /** The children `mark_children` visits: array elements, dictionary
      values, the upvalue objects of a closure, and the value of a closed
      upvalue. A matrix and an open upvalue have none. */
  function Children(o: Obj, traceErrors: bool): seq<Ref> {
    match o
    case ArrayObj(_, elems) => TracedRefs(elems, traceErrors)
    case DictObj(_, entries) => TracedRefs(DictValues(entries), traceErrors)
    case MatrixObj(_, _, _, _) => []
    case ClosureObj(_, _, _, ups) => ups
    case UpValueObj(_, u) =>
      if u.Closed? && Traced(u.value, traceErrors) then [Target(u.value)] else []
  }

  /** Marking changes nothing but flags, and only from clear to set. */
  ghost predicate OnlyMarks(h: Objects, h': Objects) {
    h'.Keys == h.Keys &&
    (forall r :: r in h ==> Contents(h'[r]) == Contents(h[r])) &&
    (forall r :: r in h && h[r].marked ==> h'[r].marked)
  }

  lemma UnmarkedShrinks(h: Objects, r: Ref)
    requires r in h && !h[r].marked
    ensures Unmarked(h[r := Mark(h[r])]) == Unmarked(h) - {r}
    ensures |Unmarked(h[r := Mark(h[r])])| < |Unmarked(h)|
  {
  }

  /** Visiting one object: if it is present and not yet marked, mark it,
      then visit its children. Already marked objects stop the descent, so
      marking ends on cyclic graphs. */
  function MarkRef(h: Objects, r: Ref, traceErrors: bool): (h': Objects)
    ensures OnlyMarks(h, h')
    ensures Unmarked(h') <= Unmarked(h)
    ensures r in h ==> h'[r].marked
    decreases |Unmarked(h)|, 1
  {
    if r in h && !h[r].marked then
      UnmarkedShrinks(h, r);
      MarkChildren(h[r := Mark(h[r])], r, traceErrors)
    else h
  }

  /** `mark_proc!(v)`: a traced value has its object visited. */
  function MarkValue(h: Objects, v: Value, traceErrors: bool): (h': Objects)
    ensures OnlyMarks(h, h')
    ensures Unmarked(h') <= Unmarked(h)
    ensures Traced(v, traceErrors) && Target(v) in h ==> h'[Target(v)].marked
    decreases |Unmarked(h)|, 2
  {
    if Traced(v, traceErrors) then MarkRef(h, Target(v), traceErrors) else h
  }

  /** `mark_children` of the object at `r`. */
  function MarkChildren(h: Objects, r: Ref, traceErrors: bool): (h': Objects)
    requires r in h
    ensures OnlyMarks(h, h')
    ensures Unmarked(h') <= Unmarked(h)
    decreases |Unmarked(h)|, 4
  {
    match h[r]
    case ArrayObj(_, elems) => MarkValues(h, elems, traceErrors)
    case DictObj(_, entries) => MarkValues(h, DictValues(entries), traceErrors)
    case MatrixObj(_, _, _, _) => h
    case ClosureObj(_, _, _, ups) => MarkUpvalues(h, ups, traceErrors)
    case UpValueObj(_, u) => if u.Closed? then MarkValue(h, u.value, traceErrors) else h
  }

  /** The loop of `mark_children` over values. */
  function MarkValues(h: Objects, vs: seq<Value>, traceErrors: bool): (h': Objects)
    ensures OnlyMarks(h, h')
    ensures Unmarked(h') <= Unmarked(h)
    decreases |Unmarked(h)|, 3, |vs|
  {
    if |vs| == 0 then h
    else
      var h1 := MarkValue(h, vs[0], traceErrors);
      SubsetCard(Unmarked(h1), Unmarked(h));
      MarkValues(h1, vs[1..], traceErrors)
  }

  /** The loop of `Closure::mark_children`: each upvalue object is visited. */
  function MarkUpvalues(h: Objects, ups: seq<Ref>, traceErrors: bool): (h': Objects)
    ensures OnlyMarks(h, h')
    ensures Unmarked(h') <= Unmarked(h)
    decreases |Unmarked(h)|, 3, |ups|
  {
    if |ups| == 0 then h
    else
      var h1 := MarkRef(h, ups[0], traceErrors);
      SubsetCard(Unmarked(h1), Unmarked(h));
      MarkUpvalues(h1, ups[1..], traceErrors)
  }

  lemma SubsetCard(a: set<Ref>, b: set<Ref>)
    requires a <= b
    ensures |a| <= |b|
  {
    assert b == a + (b - a);
  }

  // ---------------------------------------------------------------------
  // What marking achieves.
  // ---------------------------------------------------------------------

  /** Every marked object outside `pending` has all its present children
      marked: the marked set is closed under the child relation except at
      the objects whose children are still being visited. */
  ghost predicate ClosedExcept(h: Objects, pending: set<Ref>, traceErrors: bool) {
    forall r, c :: r in h && h[r].marked && r !in pending && c in Children(h[r], traceErrors) && c in h ==> h[c].marked
  }

  lemma ChildrenIgnoreMark(o: Obj, o': Obj, traceErrors: bool)
    requires Contents(o) == Contents(o')
    ensures Children(o, traceErrors) == Children(o', traceErrors)
  {
  }

  /** Marking one more object keeps the invariant once that object joins
      the pending set. */
  lemma MarkPending(h: Objects, r: Ref, traceErrors: bool, pending: set<Ref>)
    requires r in h && ClosedExcept(h, pending, traceErrors)
    ensures ClosedExcept(h[r := Mark(h[r])], pending + {r}, traceErrors)
  {
    var h1 := h[r := Mark(h[r])];
    forall q, c | q in h1 && h1[q].marked && q !in pending + {r} && c in Children(h1[q], traceErrors) && c in h1
      ensures h1[c].marked
    {
      assert h1[q] == h[q];
    }
  }

  /** Once every child of `r` is marked, `r` need not stay pending. */
  lemma PendingResolved(h: Objects, h': Objects, r: Ref, traceErrors: bool, pending: set<Ref>)
    requires r in h && OnlyMarks(h, h')
    requires ClosedExcept(h', pending + {r}, traceErrors)
    requires forall c :: c in Children(h[r], traceErrors) && c in h ==> h'[c].marked
    ensures ClosedExcept(h', pending, traceErrors)
  {
    forall q, c | q in h' && h'[q].marked && q !in pending && c in Children(h'[q], traceErrors) && c in h'
      ensures h'[c].marked
    {
      if q == r {
        ChildrenIgnoreMark(h[r], h'[r], traceErrors);
      }
    }
  }

  /** Lemma: visiting an object keeps the marked set closed outside the
      pending objects. */
  lemma {:induction false} MarkRefCloses(h: Objects, r: Ref, traceErrors: bool, pending: set<Ref>)
    requires ClosedExcept(h, pending, traceErrors)
    ensures ClosedExcept(MarkRef(h, r, traceErrors), pending, traceErrors)
    decreases |Unmarked(h)|, 1
  {
    if r in h && !h[r].marked {
      UnmarkedShrinks(h, r);
      MarkPending(h, r, traceErrors, pending);
      MarkChildrenCloses(h[r := Mark(h[r])], r, traceErrors, pending);
    }
  }

  lemma {:induction false} MarkValueCloses(h: Objects, v: Value, traceErrors: bool, pending: set<Ref>)
    requires ClosedExcept(h, pending, traceErrors)
    ensures ClosedExcept(MarkValue(h, v, traceErrors), pending, traceErrors)
    decreases |Unmarked(h)|, 2
  {
    if Traced(v, traceErrors) {
      MarkRefCloses(h, Target(v), traceErrors, pending);
    }
  }

  /** Lemma: visiting the children of a marked object `r` marks all of
      them, which lets `r` leave the pending set. */
  lemma {:induction false} MarkChildrenCloses(h: Objects, r: Ref, traceErrors: bool, pending: set<Ref>)
    requires r in h && h[r].marked
    requires ClosedExcept(h, pending + {r}, traceErrors)
    ensures ClosedExcept(MarkChildren(h, r, traceErrors), pending, traceErrors)
    decreases |Unmarked(h)|, 4
  {
    match h[r]
    case ArrayObj(_, elems) =>
      MarkValuesCloses(h, elems, traceErrors, pending + {r});
      PendingResolved(h, MarkValues(h, elems, traceErrors), r, traceErrors, pending);
    case DictObj(_, entries) =>
      MarkValuesCloses(h, DictValues(entries), traceErrors, pending + {r});
      PendingResolved(h, MarkValues(h, DictValues(entries), traceErrors), r, traceErrors, pending);
    case MatrixObj(_, _, _, _) =>
      PendingResolved(h, h, r, traceErrors, pending);
    case ClosureObj(_, _, _, ups) =>
      MarkUpvaluesCloses(h, ups, traceErrors, pending + {r});
      PendingResolved(h, MarkUpvalues(h, ups, traceErrors), r, traceErrors, pending);
    case UpValueObj(_, u) =>
      if u.Closed? {
        MarkValueCloses(h, u.value, traceErrors, pending + {r});
        PendingResolved(h, MarkValue(h, u.value, traceErrors), r, traceErrors, pending);
      } else {
        PendingResolved(h, h, r, traceErrors, pending);
      }
  }

  /** Lemma: marking a sequence of values keeps the marked set closed and
      marks the target of every traced value in it. */
  lemma {:induction false} MarkValuesCloses(h: Objects, vs: seq<Value>, traceErrors: bool, pending: set<Ref>)
    requires ClosedExcept(h, pending, traceErrors)
    ensures ClosedExcept(MarkValues(h, vs, traceErrors), pending, traceErrors)
    ensures forall c :: c in TracedRefs(vs, traceErrors) && c in h ==> MarkValues(h, vs, traceErrors)[c].marked
    decreases |Unmarked(h)|, 3, |vs|
  {
    if |vs| > 0 {
      var h1 := MarkValue(h, vs[0], traceErrors);
      MarkValueCloses(h, vs[0], traceErrors, pending);
      SubsetCard(Unmarked(h1), Unmarked(h));
      MarkValuesCloses(h1, vs[1..], traceErrors, pending);
    }
  }

  /** Lemma: the same for the upvalue objects of a closure. */
  lemma {:induction false} MarkUpvaluesCloses(h: Objects, ups: seq<Ref>, traceErrors: bool, pending: set<Ref>)
    requires ClosedExcept(h, pending, traceErrors)
    ensures ClosedExcept(MarkUpvalues(h, ups, traceErrors), pending, traceErrors)
    ensures forall c :: c in ups && c in h ==> MarkUpvalues(h, ups, traceErrors)[c].marked
    decreases |Unmarked(h)|, 3, |ups|
  {
    if |ups| > 0 {
      var h1 := MarkRef(h, ups[0], traceErrors);
      MarkRefCloses(h, ups[0], traceErrors, pending);
      SubsetCard(Unmarked(h1), Unmarked(h));
      MarkUpvaluesCloses(h1, ups[1..], traceErrors, pending);
    }
  }

  // ---------------------------------------------------------------------
  // Reachability, defined on its own: chains of child links.
  // ---------------------------------------------------------------------

  /** A chain of present objects, each one a child of the one before. */
  ghost predicate IsPath(h: Objects, p: seq<Ref>, traceErrors: bool) {
    |p| > 0 && (forall i :: 0 <= i < |p| ==> p[i] in h) &&
    (forall i :: 0 <= i < |p| - 1 ==> p[i + 1] in Children(h[p[i]], traceErrors))
  }

  /** `r` is reachable in `h` from one of the sources `srcs`. */
  ghost predicate Reaches(h: Objects, srcs: seq<Ref>, r: Ref, traceErrors: bool) {
    exists p :: IsPath(h, p, traceErrors) && p[0] in srcs && p[|p| - 1] == r
  }

  /** Newly marked objects are all reachable from the sources. */
  ghost predicate MarkedFrom(h: Objects, h': Objects, srcs: seq<Ref>, traceErrors: bool) {
    forall q :: q in h && q in h' && h'[q].marked && !h[q].marked ==> Reaches(h, srcs, q, traceErrors)
  }

  lemma PathIgnoresMarks(h: Objects, h': Objects, p: seq<Ref>, traceErrors: bool)
    requires OnlyMarks(h, h')
    ensures IsPath(h', p, traceErrors) <==> IsPath(h, p, traceErrors)
  {
    forall i | 0 <= i < |p| && p[i] in h
      ensures Children(h'[p[i]], traceErrors) == Children(h[p[i]], traceErrors)
    {
      ChildrenIgnoreMark(h[p[i]], h'[p[i]], traceErrors);
    }
  }

  lemma ReachesIgnoresMarks(h: Objects, h': Objects, srcs: seq<Ref>, r: Ref, traceErrors: bool)
    requires OnlyMarks(h, h')
    ensures Reaches(h', srcs, r, traceErrors) <==> Reaches(h, srcs, r, traceErrors)
  {
    if Reaches(h', srcs, r, traceErrors) {
      var p :| IsPath(h', p, traceErrors) && p[0] in srcs && p[|p| - 1] == r;
      PathIgnoresMarks(h, h', p, traceErrors);
    }
    if Reaches(h, srcs, r, traceErrors) {
      var p :| IsPath(h, p, traceErrors) && p[0] in srcs && p[|p| - 1] == r;
      PathIgnoresMarks(h, h', p, traceErrors);
    }
  }

  lemma ReachesSelf(h: Objects, srcs: seq<Ref>, r: Ref, traceErrors: bool)
    requires r in h && r in srcs
    ensures Reaches(h, srcs, r, traceErrors)
  {
    assert IsPath(h, [r], traceErrors);
  }

  lemma ReachesWiden(h: Objects, a: seq<Ref>, b: seq<Ref>, r: Ref, traceErrors: bool)
    requires forall c :: c in a ==> c in b
    requires Reaches(h, a, r, traceErrors)
    ensures Reaches(h, b, r, traceErrors)
  {
    var p :| IsPath(h, p, traceErrors) && p[0] in a && p[|p| - 1] == r;
    assert p[0] in b;
  }

  /** Lemma: what the children of `r` reach, `r` reaches. */
  lemma ReachesPrepend(h: Objects, r: Ref, srcs: seq<Ref>, q: Ref, traceErrors: bool)
    requires r in h && forall c :: c in srcs ==> c in Children(h[r], traceErrors)
    requires Reaches(h, srcs, q, traceErrors)
    ensures Reaches(h, [r], q, traceErrors)
  {
    var p :| IsPath(h, p, traceErrors) && p[0] in srcs && p[|p| - 1] == q;
    var p' := [r] + p;
    assert forall i :: 1 <= i < |p'| ==> p'[i] == p[i - 1];
    assert IsPath(h, p', traceErrors);
  }

  /** Lemma: a path that starts in a set closed under the child relation
      stays in it. */
  lemma {:induction false} PathStaysIn(h: Objects, p: seq<Ref>, s: set<Ref>, traceErrors: bool)
    requires IsPath(h, p, traceErrors) && p[0] in s
    requires forall x, y :: x in s && x in h && y in Children(h[x], traceErrors) && y in h ==> y in s
    ensures p[|p| - 1] in s
    decreases |p|
  {
    if |p| > 1 {
      assert p[1] in Children(h[p[0]], traceErrors);
      var p' := p[1..];
      assert forall i :: 0 <= i < |p'| ==> p'[i] == p[i + 1];
      assert IsPath(h, p', traceErrors);
      PathStaysIn(h, p', s, traceErrors);
    }
  }

  lemma MarkedFromTrans(h: Objects, h1: Objects, h2: Objects, a: seq<Ref>, b: seq<Ref>, c: seq<Ref>, traceErrors: bool)
    requires OnlyMarks(h, h1) && OnlyMarks(h1, h2)
    requires MarkedFrom(h, h1, a, traceErrors) && MarkedFrom(h1, h2, b, traceErrors)
    requires (forall x :: x in a ==> x in c) && (forall x :: x in b ==> x in c)
    ensures MarkedFrom(h, h2, c, traceErrors)
  {
    forall q | q in h && q in h2 && h2[q].marked && !h[q].marked
      ensures Reaches(h, c, q, traceErrors)
    {
      if h1[q].marked {
        ReachesWiden(h, a, c, q, traceErrors);
      } else {
        ReachesIgnoresMarks(h, h1, b, q, traceErrors);
        ReachesWiden(h, b, c, q, traceErrors);
      }
    }
  }

  /** Lemma: visiting an object marks nothing it does not reach. */
  lemma {:induction false} MarkRefFrom(h: Objects, r: Ref, traceErrors: bool)
    ensures MarkedFrom(h, MarkRef(h, r, traceErrors), [r], traceErrors)
    decreases |Unmarked(h)|, 1
  {
    if r in h && !h[r].marked {
      UnmarkedShrinks(h, r);
      MarkChildrenFrom(h[r := Mark(h[r])], r, traceErrors);
      VisitFrom(h, r, traceErrors);
    }
  }

  /** Marking `r` adds `r` itself to what visiting its children marks. */
  lemma VisitFrom(h: Objects, r: Ref, traceErrors: bool)
    requires r in h
    requires var h1 := h[r := Mark(h[r])];
      MarkedFrom(h1, MarkChildren(h1, r, traceErrors), Children(h1[r], traceErrors), traceErrors)
    ensures MarkedFrom(h, MarkChildren(h[r := Mark(h[r])], r, traceErrors), [r], traceErrors)
  {
    var h1 := h[r := Mark(h[r])];
    var h2 := MarkChildren(h1, r, traceErrors);
    assert OnlyMarks(h, h1);
    ChildrenIgnoreMark(h[r], h1[r], traceErrors);
    forall q | q in h && q in h2 && h2[q].marked && !h[q].marked
      ensures Reaches(h, [r], q, traceErrors)
    {
      if q == r {
        ReachesSelf(h, [r], r, traceErrors);
      } else {
        ReachesIgnoresMarks(h, h1, Children(h1[r], traceErrors), q, traceErrors);
        ReachesPrepend(h, r, Children(h[r], traceErrors), q, traceErrors);
      }
    }
  }

  lemma {:induction false} MarkValueFrom(h: Objects, v: Value, traceErrors: bool)
    ensures MarkedFrom(h, MarkValue(h, v, traceErrors), if Traced(v, traceErrors) then [Target(v)] else [], traceErrors)
    decreases |Unmarked(h)|, 2
  {
    if Traced(v, traceErrors) {
      MarkRefFrom(h, Target(v), traceErrors);
    }
  }

  lemma {:induction false} MarkChildrenFrom(h: Objects, r: Ref, traceErrors: bool)
    requires r in h
    ensures MarkedFrom(h, MarkChildren(h, r, traceErrors), Children(h[r], traceErrors), traceErrors)
    decreases |Unmarked(h)|, 4
  {
    match h[r]
    case ArrayObj(_, elems) => MarkValuesFrom(h, elems, traceErrors);
    case DictObj(_, entries) => MarkValuesFrom(h, DictValues(entries), traceErrors);
    case MatrixObj(_, _, _, _) =>
    case ClosureObj(_, _, _, ups) => MarkUpvaluesFrom(h, ups, traceErrors);
    case UpValueObj(_, u) =>
      if u.Closed? {
        MarkValueFrom(h, u.value, traceErrors);
      }
  }

  lemma {:induction false} MarkValuesFrom(h: Objects, vs: seq<Value>, traceErrors: bool)
    ensures MarkedFrom(h, MarkValues(h, vs, traceErrors), TracedRefs(vs, traceErrors), traceErrors)
    decreases |Unmarked(h)|, 3, |vs|
  {
    if |vs| > 0 {
      var h1 := MarkValue(h, vs[0], traceErrors);
      MarkValueFrom(h, vs[0], traceErrors);
      SubsetCard(Unmarked(h1), Unmarked(h));
      MarkValuesFrom(h1, vs[1..], traceErrors);
      MarkedFromTrans(h, h1, MarkValues(h1, vs[1..], traceErrors),
        if Traced(vs[0], traceErrors) then [Target(vs[0])] else [], TracedRefs(vs[1..], traceErrors),
        TracedRefs(vs, traceErrors), traceErrors);
    }
  }

  lemma {:induction false} MarkUpvaluesFrom(h: Objects, ups: seq<Ref>, traceErrors: bool)
    ensures MarkedFrom(h, MarkUpvalues(h, ups, traceErrors), ups, traceErrors)
    decreases |Unmarked(h)|, 3, |ups|
  {
    if |ups| > 0 {
      var h1 := MarkRef(h, ups[0], traceErrors);
      MarkRefFrom(h, ups[0], traceErrors);
      SubsetCard(Unmarked(h1), Unmarked(h));
      MarkUpvaluesFrom(h1, ups[1..], traceErrors);
      MarkedFromTrans(h, h1, MarkUpvalues(h1, ups[1..], traceErrors), [ups[0]], ups[1..], ups, traceErrors);
    }
  }

  // ---------------------------------------------------------------------
  // `run_gc`.
  // ---------------------------------------------------------------------

  /** Collection starts only once the heap holds this many objects. */
  const Threshold: nat := 128

  /** Visiting a root: its object is marked and its children visited,
      whether or not it was already marked. */
  function MarkRoot(h: Objects, r: Ref, traceErrors: bool): (h': Objects)
    ensures OnlyMarks(h, h')
    ensures r in h ==> h'[r].marked
  {
    if r in h then MarkChildren(h[r := Mark(h[r])], r, traceErrors) else h
  }

  /** The root loop of `run_gc` over the stack. */
  function MarkRoots(h: Objects, roots: seq<Value>, traceErrors: bool): (h': Objects)
    ensures OnlyMarks(h, h')
    ensures forall i :: 0 <= i < |roots| && Traced(roots[i], traceErrors) && Target(roots[i]) in h ==> h'[Target(roots[i])].marked
  {
    if |roots| == 0 then h
    else
      var h1 := if Traced(roots[0], traceErrors) then MarkRoot(h, Target(roots[0]), traceErrors) else h;
      var h' := MarkRoots(h1, roots[1..], traceErrors);
      assert forall i :: 1 <= i < |roots| ==> roots[i] == roots[1..][i - 1];
      h'
  }

  /** The repaired collector also treats the VM's list of open upvalue
      objects as roots. */
  function MarkRefs(h: Objects, refs: seq<Ref>, traceErrors: bool): (h': Objects)
    ensures OnlyMarks(h, h')
    ensures forall c :: c in refs && c in h ==> h'[c].marked
  {
    if |refs| == 0 then h
    else MarkRefs(MarkRoot(h, refs[0], traceErrors), refs[1..], traceErrors)
  }

  /** Lemma: root visits keep the marked set closed. */
  lemma MarkRootCloses(h: Objects, r: Ref, traceErrors: bool)
    requires ClosedExcept(h, {}, traceErrors)
    ensures ClosedExcept(MarkRoot(h, r, traceErrors), {}, traceErrors)
  {
    if r in h {
      MarkPending(h, r, traceErrors, {});
      assert {} + {r} == {r};
      MarkChildrenCloses(h[r := Mark(h[r])], r, traceErrors, {});
    }
  }

  lemma {:induction false} MarkRootsCloses(h: Objects, roots: seq<Value>, traceErrors: bool)
    requires ClosedExcept(h, {}, traceErrors)
    ensures ClosedExcept(MarkRoots(h, roots, traceErrors), {}, traceErrors)
  {
    if |roots| > 0 {
      var h1 := if Traced(roots[0], traceErrors) then MarkRoot(h, Target(roots[0]), traceErrors) else h;
      if Traced(roots[0], traceErrors) {
        MarkRootCloses(h, Target(roots[0]), traceErrors);
      }
      MarkRootsCloses(h1, roots[1..], traceErrors);
    }
  }

  lemma {:induction false} MarkRefsCloses(h: Objects, refs: seq<Ref>, traceErrors: bool)
    requires ClosedExcept(h, {}, traceErrors)
    ensures ClosedExcept(MarkRefs(h, refs, traceErrors), {}, traceErrors)
  {
    if |refs| > 0 {
      MarkRootCloses(h, refs[0], traceErrors);
      MarkRefsCloses(MarkRoot(h, refs[0], traceErrors), refs[1..], traceErrors);
    }
  }

  lemma MarkRootFrom(h: Objects, r: Ref, traceErrors: bool)
    ensures MarkedFrom(h, MarkRoot(h, r, traceErrors), [r], traceErrors)
  {
    if r in h {
      MarkChildrenFrom(h[r := Mark(h[r])], r, traceErrors);
      VisitFrom(h, r, traceErrors);
    }
  }

  lemma {:induction false} MarkRootsFrom(h: Objects, roots: seq<Value>, traceErrors: bool)
    ensures MarkedFrom(h, MarkRoots(h, roots, traceErrors), TracedRefs(roots, traceErrors), traceErrors)
  {
    if |roots| > 0 {
      var a := if Traced(roots[0], traceErrors) then [Target(roots[0])] else [];
      var h1 := if Traced(roots[0], traceErrors) then MarkRoot(h, Target(roots[0]), traceErrors) else h;
      if Traced(roots[0], traceErrors) {
        MarkRootFrom(h, Target(roots[0]), traceErrors);
      }
      MarkRootsFrom(h1, roots[1..], traceErrors);
      MarkedFromTrans(h, h1, MarkRoots(h1, roots[1..], traceErrors), a, TracedRefs(roots[1..], traceErrors),
        TracedRefs(roots, traceErrors), traceErrors);
    }
  }

  lemma {:induction false} MarkRefsFrom(h: Objects, refs: seq<Ref>, traceErrors: bool)
    ensures MarkedFrom(h, MarkRefs(h, refs, traceErrors), refs, traceErrors)
  {
    if |refs| > 0 {
      var h1 := MarkRoot(h, refs[0], traceErrors);
      MarkRootFrom(h, refs[0], traceErrors);
      MarkRefsFrom(h1, refs[1..], traceErrors);
      MarkedFromTrans(h, h1, MarkRefs(h1, refs[1..], traceErrors), [refs[0]], refs[1..], refs, traceErrors);
    }
  }

  /** Lemma: starting from a heap with nothing marked, a marking that is
      closed, has every source marked and marks only what the sources
      reach has marked exactly the reachable objects. */
  lemma ExactlyReachable(h: Objects, hm: Objects, srcs: seq<Ref>, traceErrors: bool)
    requires NoneMarked(h) && OnlyMarks(h, hm) && ClosedExcept(hm, {}, traceErrors)
    requires MarkedFrom(h, hm, srcs, traceErrors)
    requires forall c :: c in srcs && c in h ==> hm[c].marked
    ensures forall r :: r in h ==> (hm[r].marked <==> Reaches(h, srcs, r, traceErrors))
  {
    forall r | r in h && Reaches(h, srcs, r, traceErrors)
      ensures hm[r].marked
    {
      ReachedIsMarked(h, hm, srcs, r, traceErrors);
    }
  }

  lemma ReachedIsMarked(h: Objects, hm: Objects, srcs: seq<Ref>, r: Ref, traceErrors: bool)
    requires OnlyMarks(h, hm) && ClosedExcept(hm, {}, traceErrors)
    requires forall c :: c in srcs && c in h ==> hm[c].marked
    requires Reaches(h, srcs, r, traceErrors)
    ensures r in hm && hm[r].marked
  {
    var s := set q | q in hm && hm[q].marked;
    forall x, y | x in s && x in h && y in Children(h[x], traceErrors) && y in h
      ensures y in s
    {
      ChildrenIgnoreMark(h[x], hm[x], traceErrors);
    }
    var p :| IsPath(h, p, traceErrors) && p[0] in srcs && p[|p| - 1] == r;
    PathStaysIn(h, p, s, traceErrors);
  }

  /** Lemma: from a heap with nothing marked, the root loop of `run_gc`
      marks exactly the objects reachable from the stack. */
  lemma MarkRootsMarksReachable(h: Objects, stack: seq<Value>, traceErrors: bool)
    ensures var hm := MarkRoots(h, stack, traceErrors);
      NoneMarked(h) ==> forall r :: r in h ==> (hm[r].marked <==> Reaches(h, TracedRefs(stack, traceErrors), r, traceErrors))
  {
    if !NoneMarked(h) { return; }
    var hm := MarkRoots(h, stack, traceErrors);
    MarkRootsFrom(h, stack, traceErrors);
    MarkRootsCloses(h, stack, traceErrors);
    forall c | c in TracedRefs(stack, traceErrors) && c in h
      ensures hm[c].marked
    {
      var i :| 0 <= i < |stack| && Traced(stack[i], traceErrors) && Target(stack[i]) == c;
    }
    ExactlyReachable(h, hm, TracedRefs(stack, traceErrors), traceErrors);
  }

  /** Lemma: from a heap with nothing marked, the repaired marking (stack
      and open upvalue list, `Error` values followed) marks exactly the
      objects reachable from those roots. */
  lemma MarkRepairedMarksReachable(h: Objects, stack: seq<Value>, openUpvalues: seq<Ref>)
    ensures var hm := MarkRefs(MarkRoots(h, stack, true), openUpvalues, true);
      NoneMarked(h) ==> forall r :: r in h ==> (hm[r].marked <==> Reaches(h, TracedRefs(stack, true) + openUpvalues, r, true))
  {
    if !NoneMarked(h) { return; }
    var srcs := TracedRefs(stack, true) + openUpvalues;
    var h1 := MarkRoots(h, stack, true);
    var hm := MarkRefs(h1, openUpvalues, true);
    MarkRootsFrom(h, stack, true);
    MarkRefsFrom(h1, openUpvalues, true);
    MarkedFromTrans(h, h1, hm, TracedRefs(stack, true), openUpvalues, srcs, true);
    MarkRootsCloses(h, stack, true);
    MarkRefsCloses(h1, openUpvalues, true);
    forall c | c in srcs && c in h
      ensures hm[c].marked
    {
      if c in TracedRefs(stack, true) {
        var i :| 0 <= i < |stack| && Traced(stack[i], true) && Target(stack[i]) == c;
      }
    }
    ExactlyReachable(h, hm, srcs, true);
  }

  /** The sweep: keep the marked objects, clearing their flags. */
  function Sweep(h: Objects): (h': Objects)
    ensures forall r :: r in h' <==> r in h && h[r].marked
    ensures forall r :: r in h' ==> h'[r] == Demark(h[r])
  {
    map r | r in h && h[r].marked :: Demark(h[r])
  }

  /** `run_gc` as written: below the threshold nothing happens; otherwise
      the stack values are the only roots and `Error` values are not
      followed. */
  function RunGc(h: Objects, stack: seq<Value>): (h': Objects)
    ensures |h| < Threshold ==> h' == h
    ensures |h| >= Threshold ==> h'.Keys <= h.Keys && forall r :: r in h' ==> !h'[r].marked && Contents(h'[r]) == Contents(h[r])
    ensures |h| >= Threshold && NoneMarked(h) ==>
      forall r :: r in h' <==> r in h && Reaches(h, TracedRefs(stack, false), r, false)
  {
    if |h| < Threshold then h
    else
      MarkRootsMarksReachable(h, stack, false);
      Sweep(MarkRoots(h, stack, false))
  }

  /** `run_gc` repaired: `Error` values are followed like dictionaries and
      the open upvalue objects are roots as well. */
  function RunGcRepaired(h: Objects, stack: seq<Value>, openUpvalues: seq<Ref>): (h': Objects)
    ensures |h| < Threshold ==> h' == h
    ensures |h| >= Threshold ==> h'.Keys <= h.Keys && forall r :: r in h' ==> !h'[r].marked && Contents(h'[r]) == Contents(h[r])
    ensures |h| >= Threshold && NoneMarked(h) ==>
      forall r :: r in h' <==> r in h && Reaches(h, TracedRefs(stack, true) + openUpvalues, r, true)
  {
    if |h| < Threshold then h
    else
      MarkRepairedMarksReachable(h, stack, openUpvalues);
      Sweep(MarkRefs(MarkRoots(h, stack, true), openUpvalues, true))
  }

  /** No object is marked (the state between collections). */
  ghost predicate NoneMarked(h: Objects) {
    forall r :: r in h ==> !h[r].marked
  }

  /** Every address reachable in one step from an object or a root is
      allocated. */
  ghost predicate NoDangling(h: Objects, stack: seq<Value>, openUpvalues: seq<Ref>, traceErrors: bool) {
    (forall r, c :: r in h && c in Children(h[r], traceErrors) ==> c in h) &&
    (forall v :: v in stack && Traced(v, traceErrors) ==> Target(v) in h) &&
    (forall u :: u in openUpvalues ==> u in h)
  }

  /** Sweeping a heap whose marked set is closed leaves nothing dangling
      from the survivors. */
  lemma SweepClosed(h: Objects, hm: Objects, traceErrors: bool)
    requires OnlyMarks(h, hm) && ClosedExcept(hm, {}, traceErrors)
    requires forall r, c :: r in h && c in Children(h[r], traceErrors) ==> c in h
    ensures forall r, c :: r in Sweep(hm) && c in Children(Sweep(hm)[r], traceErrors) ==> c in Sweep(hm)
  {
    var s := Sweep(hm);
    forall r, c | r in s && c in Children(s[r], traceErrors)
      ensures c in s
    {
      assert r in hm && hm[r].marked && s[r] == Demark(hm[r]);
      SweepKeepsChild(h, hm, traceErrors, r, c);
    }
  }

  /** Lemma: a child of a marked object survives the sweep. */
  lemma SweepKeepsChild(h: Objects, hm: Objects, traceErrors: bool, r: Ref, c: Ref)
    requires OnlyMarks(h, hm) && ClosedExcept(hm, {}, traceErrors)
    requires forall r, c :: r in h && c in Children(h[r], traceErrors) ==> c in h
    requires r in hm && hm[r].marked && c in Children(Demark(hm[r]), traceErrors)
    ensures c in hm && hm[c].marked
  {
    ChildrenIgnoreMark(Demark(hm[r]), hm[r], traceErrors);
    ChildrenIgnoreMark(hm[r], h[r], traceErrors);
    assert c in h;
  }

  /** Lemma: the repaired collection preserves the absence of dangling
      addresses, for the heap, the stack and the open upvalue list. */
  lemma RunGcRepairedNoDangling(h: Objects, stack: seq<Value>, openUpvalues: seq<Ref>)
    requires NoneMarked(h) && NoDangling(h, stack, openUpvalues, true)
    ensures NoDangling(RunGcRepaired(h, stack, openUpvalues), stack, openUpvalues, true)
  {
    if |h| >= Threshold {
      var h1 := MarkRoots(h, stack, true);
      var h2 := MarkRefs(h1, openUpvalues, true);
      MarkRootsCloses(h, stack, true);
      MarkRefsCloses(h1, openUpvalues, true);
      SweepClosed(h, h2, true);
      forall v | v in stack && Traced(v, true)
        ensures Target(v) in Sweep(h2)
      {
        var i :| 0 <= i < |stack| && stack[i] == v;
      }
    }
  }

  /** Lemma: the collector as written is sound for what it follows: with
      `Error` values and open upvalues left aside, nothing reachable from
      the stack is freed. */
  lemma RunGcNoDanglingWithoutErrors(h: Objects, stack: seq<Value>)
    requires NoneMarked(h) && NoDangling(h, stack, [], false)
    ensures NoDangling(RunGc(h, stack), stack, [], false)
  {
    if |h| >= Threshold {
      var h1 := MarkRoots(h, stack, false);
      MarkRootsCloses(h, stack, false);
      SweepClosed(h, h1, false);
      forall v | v in stack && Traced(v, false)
        ensures Target(v) in Sweep(h1)
      {
        var i :| 0 <= i < |stack| && stack[i] == v;
      }
    }
  }

  /** Lemma (as written): a dictionary reachable only through an `Error`
      value on the stack is freed. */
  lemma RunGcFreesErrorDictionary(h: Objects, r: Ref)
    requires |h| >= Threshold && NoneMarked(h) && r in h
    ensures r !in RunGc(h, [Error(r)])
  {
    assert MarkRoots(h, [Error(r)], false) == MarkRoots(h, [], false);
  }

  /** Lemma (as written): a closure on the stack keeps the upvalue it
      captured, but an open upvalue object that is listed only in the VM's
      open upvalue list is freed while still listed; the repaired
      collector keeps it. */
  lemma RunGcFreesOpenUpvalue(h: Objects, c: Ref, w: Ref, u: Ref, i: nat, j: nat)
    requires |h| >= Threshold && NoneMarked(h)
    requires c in h && h[c].ClosureObj? && h[c].upvalues == [w]
    requires w in h && h[w] == UpValueObj(false, OpenRef(i))
    requires u in h && h[u] == UpValueObj(false, OpenRef(j)) && u != c && u != w
    ensures w in RunGc(h, [Closure(c)])
    ensures u !in RunGc(h, [Closure(c)])
    ensures u in RunGcRepaired(h, [Closure(c)], [w, u])
  {
    var roots := TracedRefs([Closure(c)], false);
    TracedRefsOne(Closure(c), false);
    assert roots == [c];
    assert IsPath(h, [c, w], false);
    OnlyCapturedReached(h, c, w, u);
    assert !Reaches(h, roots, u, false);
    ReachesSelf(h, TracedRefs([Closure(c)], true) + [w, u], u, true);
  }

  lemma TracedRefsOne(v: Value, traceErrors: bool)
    ensures TracedRefs([v], traceErrors) == if Traced(v, traceErrors) then [Target(v)] else []
  {
    assert [v][1..] == [];
  }

  /** From a closure whose one upvalue is open, nothing else is reached. */
  lemma OnlyCapturedReached(h: Objects, c: Ref, w: Ref, u: Ref)
    requires c in h && h[c].ClosureObj? && h[c].upvalues == [w]
    requires w in h && h[w].UpValueObj? && h[w].upvalue.OpenRef?
    requires u != c && u != w
    ensures !Reaches(h, [c], u, false)
  {
    if Reaches(h, [c], u, false) {
      var q :| IsPath(h, q, false) && q[0] in [c] && q[|q| - 1] == u;
      PathStaysIn(h, q, {c, w}, false);
    }
  }
}
