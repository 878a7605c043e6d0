/**
 * The native collection helpers of `src/vec.rs` (a byte vector behind an
 * `OpaqueData` pointer, with bounds-checked `get` and `set`) and of
 * `src/extension_methods.rs` (`array_push`), written against the VM
 * interface of `Runtime`.
 *
 * Each helper takes the VM and its argument count: the count must be the
 * helper's arity (`arity_assert!`), the arguments lie on top of the current
 * fiber's stack with the callee below them, and every failed `unwrap`,
 * type test, range test or pointer that names no live vector or array is
 * a panic. `Number` is a real; `as usize` and `as u8` are Rust's saturating
 * casts.
 */
module Natives {
  import opened Wrappers
  import opened Bytecode
  import opened Runtime

  /** `val as u8` for a value that passed the `val > 255.` test: negative
      values saturate to 0, the rest are truncated. */
  function ToByte(val: real): (b: byte)
    requires val <= 255.0
    ensures val < 0.0 ==> b == 0
    ensures val >= 0.0 ==> b as real <= val < b as real + 1.0
  {
    AsIndex(val) as byte
  }

  /** `n` zero bytes (`vec![0u8; n]`). */
  function Zeros(n: nat): (v: seq<byte>)
    ensures |v| == n && forall i :: 0 <= i < n ==> v[i] == 0
  {
    seq(n, _ => 0 as byte)
  }

  /** The stack once `k` operands and the callee below them are popped:
      the callee's `let _ = pop()` takes nothing from an empty stack. */
  function Below(st: seq<Value>, k: nat): (r: seq<Value>)
    requires k <= |st|
    ensures |st| > k ==> r + st[|st| - k - 1..] == st
    ensures |st| == k ==> r == []
  {
    if |st| > k then
      assert st[..|st| - k - 1] + st[|st| - k - 1..] == st;
      st[..|st| - k - 1]
    else []
  }

  /** Byte vector addresses are handed out fresh. */
  predicate VecsFresh(rt: Rt) {
    forall d :: d in rt.vecs ==> d < rt.nextVec
  }

  /** The `k` operands on top, in push order, and the VM once they and the
      callee are popped. */
  function Operands(rt: Rt, k: nat): (r: Option<(Rt, seq<Value>)>)
    requires HasCurrent(rt)
    ensures r.None? <==> |Stack(rt)| < k
    ensures r.Some? ==> var st := Stack(rt);
      && r.value.1 == st[|st| - k..] && |r.value.1| == k
      && r.value.0 == WithStack(rt, Below(st, k))
  {
    var st := Stack(rt);
    if |st| < k then None
    else
      var rt1 := WithStack(rt, st[..|st| - k]);
      var rt2 := Drop(rt1);
      assert Stack(rt2) == Below(st, k);
      assert rt2.fibers == WithStack(rt, Below(st, k)).fibers;
      Some((rt2, st[|st| - k..]))
  }

  /** `vec_u8_create`: one argument, a `Number` length; a fresh vector of
      that many zero bytes is pushed as `OpaqueData`. */
  function VecCreate(rt: Rt, argNum: nat): (r: Outcome)
    requires HasCurrent(rt)
  {
    if argNum != 1 then Panic
    else
      match Operands(rt, 1)
      case None => Panic
      case Some((rt1, ops)) =>
        if !ops[0].Number? then Panic
        else
          var id := rt1.nextVec;
          Done(Push(rt1.(vecs := rt1.vecs[id := Zeros(AsIndex(ops[0].n))], nextVec := id + 1), OpaqueData(id)))
  }

  /** `vec_u8_set`: three arguments, the vector, a `Number` index and a
      `Number` value; a value above 255 or an index past the end panics;
      the byte at the index becomes the value, and `Nil` is pushed. */
  function VecSet(rt: Rt, argNum: nat): (r: Outcome)
    requires HasCurrent(rt)
  {
    if argNum != 3 then Panic
    else
      match Operands(rt, 3)
      case None => Panic
      case Some((rt1, ops)) =>
        var clct := ops[0];
        var idx := ops[1];
        var val := ops[2];
        if !val.Number? || !idx.Number? || !clct.OpaqueData? || clct.data !in rt1.vecs then Panic
        else if val.n > 255.0 then Panic
        else
          var v := rt1.vecs[clct.data];
          var i := AsIndex(idx.n);
          if i >= |v| then Panic
          else Done(Push(rt1.(vecs := rt1.vecs[clct.data := v[i := ToByte(val.n)]]), Nil))
  }

  /** `vec_u8_get`: two arguments, the vector and a `Number` index; an
      index past the end panics; the byte is pushed as a `Number`. */
  function VecGet(rt: Rt, argNum: nat): (r: Outcome)
    requires HasCurrent(rt)
  {
    if argNum != 2 then Panic
    else
      match Operands(rt, 2)
      case None => Panic
      case Some((rt1, ops)) =>
        var clct := ops[0];
        var idx := ops[1];
        if !idx.Number? || !clct.OpaqueData? || clct.data !in rt1.vecs then Panic
        else
          var v := rt1.vecs[clct.data];
          var i := AsIndex(idx.n);
          if i >= |v| then Panic
          else Done(Push(rt1, Number(v[i] as real)))
  }

  /** `array_push`: one argument; the value, then the callee slot, then
      the receiver below it are popped; the receiver must be an array,
      which gains the value at its end; `Nil` is pushed. */
  function ArrayPush(rt: Rt, argNum: nat): (r: Outcome)
    requires HasCurrent(rt)
  {
    if argNum != 1 then Panic
    else
      match PopValue(rt)
      case None => Panic
      case Some((rt1, v)) =>
        match PopValue(Drop(rt1))
        case None => Panic
        case Some((rt2, clct)) =>
          if !clct.Array? || clct.arr !in rt2.arrays then Panic
          else Done(Append(rt2, clct.arr, v))
  }

  /** `(*p_arr).array.push(v)`, then `Nil` pushed as the result. */
  function Append(rt: Rt, a: Ref, v: Value): (r: Rt)
    requires HasCurrent(rt) && a in rt.arrays
  {
    Push(rt.(arrays := rt.arrays[a := rt.arrays[a] + [v]]), Nil)
  }

  /** Lemma: appending gives the array the value at its end, keeping its
      earlier elements; no other array, no vector and no fiber's
      bookkeeping changes; `Nil` is pushed. */
  lemma AppendEffect(rt: Rt, a: Ref, v: Value)
    requires HasCurrent(rt) && a in rt.arrays
    ensures var r := Append(rt, a, v);
      && a in r.arrays
      && |r.arrays[a]| == |rt.arrays[a]| + 1 && r.arrays[a][|rt.arrays[a]|] == v
      && r.arrays[a][..|rt.arrays[a]|] == rt.arrays[a]
      && (forall b :: b in rt.arrays && b != a ==> b in r.arrays && r.arrays[b] == rt.arrays[b])
      && r.arrays.Keys == rt.arrays.Keys
      && Stack(r) == Stack(rt) + [Nil]
      && r.vecs == rt.vecs
      && r.fibers.Keys == rt.fibers.Keys && r.current == rt.current
  {
    var r := Append(rt, a, v);
    assert r.arrays[a] == rt.arrays[a] + [v];
  }

  // ---------------------------------------------------------------------
  // Properties.
  // ---------------------------------------------------------------------

  /** Lemma: `create` succeeds exactly with one argument, a `Number`; it
      then adds a vector of `length as usize` zero bytes at a fresh
      address, pushes that address in place of the length and the callee,
      and leaves every other vector alone. */
  lemma VecCreateEffect(rt: Rt, argNum: nat)
    requires HasCurrent(rt) && VecsFresh(rt)
    ensures var st := Stack(rt);
      VecCreate(rt, argNum).Done? <==> argNum == 1 && |st| >= 1 && st[|st| - 1].Number?
    ensures VecCreate(rt, argNum).Done? ==>
      var st := Stack(rt);
      var r := VecCreate(rt, argNum).rt;
      && rt.nextVec !in rt.vecs
      && r.vecs == rt.vecs[rt.nextVec := Zeros(AsIndex(st[|st| - 1].n))]
      && Stack(r) == Below(st, 1) + [OpaqueData(rt.nextVec)]
      && r.fibers.Keys == rt.fibers.Keys && r.current == rt.current
      && r.arrays == rt.arrays
      && VecsFresh(r)
  {
  }

  /** Lemma: `set` succeeds exactly with three arguments (a live vector,
      a `Number` index inside it and a `Number` value of at most 255); it
      then changes the byte at the index to `val as u8` and nothing else,
      and pushes `Nil` in place of the arguments and the callee. */
  lemma VecSetEffect(rt: Rt, argNum: nat)
    requires HasCurrent(rt)
    ensures var st := Stack(rt);
      VecSet(rt, argNum).Done? <==>
        && argNum == 3 && |st| >= 3
        && st[|st| - 3].OpaqueData? && st[|st| - 3].data in rt.vecs
        && st[|st| - 2].Number? && AsIndex(st[|st| - 2].n) < |rt.vecs[st[|st| - 3].data]|
        && st[|st| - 1].Number? && st[|st| - 1].n <= 255.0
    ensures VecSet(rt, argNum).Done? ==>
      var st := Stack(rt);
      var d := st[|st| - 3].data;
      var i := AsIndex(st[|st| - 2].n);
      var r := VecSet(rt, argNum).rt;
      && d in r.vecs && |r.vecs[d]| == |rt.vecs[d]|
      && r.vecs[d][i] == ToByte(st[|st| - 1].n)
      && (forall j :: 0 <= j < |rt.vecs[d]| && j != i ==> r.vecs[d][j] == rt.vecs[d][j])
      && (forall e :: e in rt.vecs && e != d ==> e in r.vecs && r.vecs[e] == rt.vecs[e])
      && r.vecs.Keys == rt.vecs.Keys
      && Stack(r) == Below(st, 3) + [Nil]
      && r.fibers.Keys == rt.fibers.Keys && r.current == rt.current
      && r.arrays == rt.arrays && r.nextVec == rt.nextVec
  {
  }

  /** Lemma: `get` succeeds exactly with two arguments (a live vector and
      a `Number` index inside it); it then pushes the byte there, in place
      of the arguments and the callee, and changes no vector. */
  lemma VecGetEffect(rt: Rt, argNum: nat)
    requires HasCurrent(rt)
    ensures var st := Stack(rt);
      VecGet(rt, argNum).Done? <==>
        && argNum == 2 && |st| >= 2
        && st[|st| - 2].OpaqueData? && st[|st| - 2].data in rt.vecs
        && st[|st| - 1].Number? && AsIndex(st[|st| - 1].n) < |rt.vecs[st[|st| - 2].data]|
    ensures VecGet(rt, argNum).Done? ==>
      var st := Stack(rt);
      var r := VecGet(rt, argNum).rt;
      && Stack(r) == Below(st, 2) + [Number(rt.vecs[st[|st| - 2].data][AsIndex(st[|st| - 1].n)] as real)]
      && r.vecs == rt.vecs && r.arrays == rt.arrays
      && r.fibers.Keys == rt.fibers.Keys && r.current == rt.current
  {
  }

  /** Lemma: reading a byte back after setting it gives the value set,
      when that value is a whole number from 0 to 255: a `get` on any VM
      holding the vectors `set` left, with the same vector and index on
      top, pushes the value. */
  lemma GetAfterSet(rt: Rt, s: Rt)
    requires HasCurrent(rt) && VecSet(rt, 3).Done?
    requires HasCurrent(s) && s.vecs == VecSet(rt, 3).rt.vecs
    requires var st := Stack(rt); var ss := Stack(s);
      |st| >= 3 && |ss| >= 2 && ss[|ss| - 2] == st[|st| - 3] && ss[|ss| - 1] == st[|st| - 2]
    requires var st := Stack(rt);
      st[|st| - 1].Number? && 0.0 <= st[|st| - 1].n && st[|st| - 1].n.Floor as real == st[|st| - 1].n
    ensures var st := Stack(rt);
      && VecGet(s, 2).Done?
      && Stack(VecGet(s, 2).rt) == Below(Stack(s), 2) + [st[|st| - 1]]
  {
    VecSetEffect(rt, 3);
    VecGetEffect(s, 2);
  }

  /** Lemma: `array_push` succeeds exactly with one argument and a live
      array two slots below it; it then appends the value to that array
      (see `AppendEffect`), once the value, the callee and the receiver
      are popped. */
  lemma ArrayPushEffect(rt: Rt, argNum: nat)
    requires HasCurrent(rt)
    ensures var st := Stack(rt);
      ArrayPush(rt, argNum).Done? <==>
        argNum == 1 && |st| >= 3 && st[|st| - 3].Array? && st[|st| - 3].arr in rt.arrays
    ensures ArrayPush(rt, argNum).Done? ==>
      var st := Stack(rt);
      ArrayPush(rt, argNum).rt == Append(WithStack(rt, st[..|st| - 3]), st[|st| - 3].arr, st[|st| - 1])
  {
    var st := Stack(rt);
    if |st| >= 3 {
      ArrayPushPops(rt);
    } else if |st| >= 1 {
      var rt1 := PopValue(rt).value.0;
      assert |Stack(Drop(rt1))| == 0;
    }
  }

  /** The three pops of `array_push` on a stack of at least three
      values: the value on top, the callee, and the receiver below. */
  lemma ArrayPushPops(rt: Rt)
    requires HasCurrent(rt) && |Stack(rt)| >= 3
    ensures var st := Stack(rt);
      && PopValue(rt).Some? && PopValue(rt).value.1 == st[|st| - 1]
      && PopValue(Drop(PopValue(rt).value.0)) == Some((WithStack(rt, st[..|st| - 3]), st[|st| - 3]))
  {
    var st := Stack(rt);
    var rt1 := PopValue(rt).value.0;
    assert rt1 == WithStack(rt, st[..|st| - 1]);
    assert Stack(rt1)[..|st| - 2] == st[..|st| - 2];
    var rt2 := Drop(rt1);
    assert rt2 == WithStack(rt1, st[..|st| - 2]);
    assert Stack(rt2)[..|st| - 3] == st[..|st| - 3];
    WithStackTwice(rt, st[..|st| - 1], st[..|st| - 2]);
    assert PopValue(rt2).value.0 == WithStack(rt2, st[..|st| - 3]);
    WithStackTwice(rt, st[..|st| - 2], st[..|st| - 3]);
  }
}
