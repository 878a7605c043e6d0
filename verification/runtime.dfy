/**
 * The VM interface that the fiber library (`src/fiber.rs`) and the native
 * collection helpers (`src/vec.rs`, `src/extension_methods.rs`) are written
 * against. It belongs to a newer runtime than the one `Vm` models: the
 * value stack belongs to the current fiber (`get_stack`), and fibers,
 * closures, arrays and byte vectors are objects reached through pointers.
 * Only what those native functions touch is kept here: a fiber table with
 * the current fiber's index, the chunks of closures, the elements of
 * arrays, and the byte vectors behind `OpaqueData`.
 */
module Runtime {
  import opened Wrappers
  import opened Bytecode

  /** `FiberState`. */
  datatype FiberState = Initial | Running | Waiting | Paused | Error

  /** A call frame as a fiber's first frame is built (`CallFrame::new`):
      its stack bottom, the closure it runs and the packed extra
      arguments of a variadic function. */
  datatype FrameRec = FrameRec(bottom: nat, closure: Ref, vaList: seq<Value>)

  /** A `Fiber` object; `prev` is the fiber to go back to (a null pointer
      is `None`). */
  datatype FiberObj = FiberObj(marked: bool, frames: seq<FrameRec>, stack: seq<Value>, state: FiberState, prev: Option<nat>)

  /** A byte (`u8`). */
  newtype byte = x: int | 0 <= x < 256

  /** The abstract VM: the fiber table, the current fiber (whose stack is
      the one `get_stack` returns), the next fresh fiber address, the
      chunk of every closure, the elements of every array, the byte
      vectors with the next fresh vector address, and `fiber_changed`. */
  datatype Rt = Rt(
    fibers: map<nat, FiberObj>,
    current: nat,
    nextFiber: nat,
    chunks: map<Ref, Chunk>,
    arrays: map<Ref, seq<Value>>,
    vecs: map<nat, seq<byte>>,
    nextVec: nat,
    fiberChanged: bool)

  /** What a native function does: it returns with a new VM, or panics. */
  datatype Outcome = Done(rt: Rt) | Panic

  /** The VM always runs some fiber. */
  predicate HasCurrent(rt: Rt) {
    rt.current in rt.fibers
  }

  /** `get_stack()`. */
  function Stack(rt: Rt): seq<Value>
    requires HasCurrent(rt)
  {
    rt.fibers[rt.current].stack
  }

  /** Replace the current fiber's stack. */
  function WithStack(rt: Rt, st: seq<Value>): (r: Rt)
    requires HasCurrent(rt)
    ensures HasCurrent(r) && Stack(r) == st
    ensures r.current == rt.current && r.fibers.Keys == rt.fibers.Keys
    ensures forall f :: f in rt.fibers && f != rt.current ==> r.fibers[f] == rt.fibers[f]
    ensures r.fibers[r.current] == rt.fibers[rt.current].(stack := st)
  {
    rt.(fibers := rt.fibers[rt.current := rt.fibers[rt.current].(stack := st)])
  }

  /** `get_stack().push(v)`. */
  function Push(rt: Rt, v: Value): (r: Rt)
    requires HasCurrent(rt)
    ensures HasCurrent(r) && Stack(r) == Stack(rt) + [v]
  {
    WithStack(rt, Stack(rt) + [v])
  }

  /** `get_stack().pop().unwrap()`: `None` stands for the panic on an
      empty stack. */
  function PopValue(rt: Rt): (r: Option<(Rt, Value)>)
    requires HasCurrent(rt)
    ensures r.None? <==> |Stack(rt)| == 0
    ensures r.Some? ==> HasCurrent(r.value.0) && Stack(rt) == Stack(r.value.0) + [r.value.1]
    ensures r.Some? ==> r.value.0 == WithStack(rt, Stack(r.value.0))
  {
    var st := Stack(rt);
    if |st| == 0 then None else Some((WithStack(rt, st[..|st| - 1]), st[|st| - 1]))
  }

  /** `let _ = get_stack().pop()`: drops the top value if there is one. */
  function Drop(rt: Rt): (r: Rt)
    requires HasCurrent(rt)
    ensures HasCurrent(r)
    ensures |Stack(rt)| == 0 ==> Stack(r) == []
    ensures |Stack(rt)| > 0 ==> Stack(r) + [Stack(rt)[|Stack(rt)| - 1]] == Stack(rt)
    ensures r == WithStack(rt, Stack(r))
  {
    var st := Stack(rt);
    if |st| == 0 then rt else WithStack(rt, st[..|st| - 1])
  }

  /** Lemma: replacing the stack twice is replacing it once. */
  lemma WithStackTwice(rt: Rt, a: seq<Value>, b: seq<Value>)
    requires HasCurrent(rt)
    ensures WithStack(WithStack(rt, a), b) == WithStack(rt, b)
  {
    assert WithStack(WithStack(rt, a), b).fibers == WithStack(rt, b).fibers;
  }

  /** Lemma: a push followed by a pop gives the value back and restores
      the VM. */
  lemma PushPopValue(rt: Rt, v: Value)
    requires HasCurrent(rt)
    ensures PopValue(Push(rt, v)) == Some((rt, v))
  {
    var st := Stack(rt);
    assert (st + [v])[..|st|] == st;
    var back := WithStack(Push(rt, v), st);
    assert back.fibers == rt.fibers;
  }
}
