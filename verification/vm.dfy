/**
 * The interpreter loop of `src/vm.rs`: one function per instruction, each
 * taking the machine state to an `Outcome`, and `Step`, which fetches the
 * instruction at the current frame's pc and dispatches on it.
 *
 * Raw pointers become addresses into `heap` (module `Heap`); an access
 * through an address that is no longer allocated, an `unwrap` on an empty
 * stack, an out-of-range index and a `usize` underflow all end in `Panic`.
 * Allocation takes the address `next`, which is fresh while `Fresh` holds.
 */
module Vm {
  import opened Wrappers
  import opened Bytecode
  import opened Heap
  import Gc

  /** `EvalError`, without the message strings. */
  datatype EvalError =
    | GeneralError
    | Exception(entries: Entries)
    | ArithmError
    | TypeError
    | IndexOutOfBound
    | CallError
    | GcError

  /** A `CallFrame`. The frame holds by value what the loop reads through
      its closure pointer: the chunk, where that chunk lives, and the
      captured upvalue objects. For a closure made by `Load`, the chunk is
      a constant of the chunk that loaded it and the upvalue list is fixed
      when the closure is made. The frame `Vm::new` builds is
      different: its closure pointer and that closure's chunk pointer name
      locals of `new` that are moved out when it returns. The model reads
      the top chunk by value instead. */
  datatype Frame = Frame(bottom: nat, site: ChunkPtr, chunk: Chunk, upvalues: seq<Ref>, pc: int)

  /** The fields of `Vm` the loop uses. `openUpvalues` is `Vm::upvalues`,
      the upvalue objects still pointing into the stack. */
  datatype State = State(
    stack: seq<Value>,
    frames: seq<Frame>,
    openUpvalues: seq<Ref>,
    heap: Objects,
    next: Ref,
    protected: bool,
    globals: seq<Value>)

  /** A native function (`fn(&mut Vec<Value>, usize, bool) -> Value`):
      given its id, the stack, the argument count and the protected flag,
      the stack it leaves and the value it returns. */
  type Native = (nat, seq<Value>, nat, bool) -> (seq<Value>, Value)

  /** What one step of `Vm::run` leads to: keep looping, leave the loop
      with `Ok(())`, leave it with an `EvalError`, or a Rust panic. */
  datatype Outcome = Running(state: State) | Finished(state: State) | Failed(error: EvalError) | Panic

  /** The result of a helper that may raise an `EvalError` or panic. */
  datatype Res<T> = Ok(value: T) | Raise(error: EvalError) | Crash

  // ---------------------------------------------------------------------
  // State helpers.
  // ---------------------------------------------------------------------

  /** No allocated address is at or above `next`. */
  ghost predicate Fresh(s: State) {
    forall r :: r in s.heap ==> r < s.next
  }

  /** `Vm::new`: the top chunk runs in a frame at the bottom of a stack
      holding one `Nil` per local. The frame holds the chunk itself where
      the source keeps pointers to the moved-from locals `closure` and
      `prog`. */
  function Init(prog: Chunk, globals: seq<Value>): (s: State)
    ensures |s.stack| == prog.numLocals && forall i :: 0 <= i < |s.stack| ==> s.stack[i] == Nil
    ensures |s.frames| == 1 && s.frames[0].bottom == 0 && s.frames[0].pc == 0 && s.frames[0].chunk == prog
    ensures s.heap == map[] && s.openUpvalues == [] && !s.protected && Fresh(s)
  {
    State(Nils(prog.numLocals), [Frame(0, Top, prog, [], 0)], [], map[], 0, false, globals)
  }

  function Current(s: State): Frame
    requires |s.frames| > 0
  {
    s.frames[|s.frames| - 1]
  }

  /** Replace the current frame. */
  function WithCurrent(s: State, f: Frame): (r: State)
    requires |s.frames| > 0
    ensures |r.frames| == |s.frames| && Current(r) == f
    ensures forall i :: 0 <= i < |s.frames| - 1 ==> r.frames[i] == s.frames[i]
    ensures r.stack == s.stack && r.heap == s.heap && r.openUpvalues == s.openUpvalues
    ensures r.next == s.next && r.protected == s.protected && r.globals == s.globals
  {
    s.(frames := s.frames[..|s.frames| - 1] + [f])
  }

  /** `pc_add`: move the current frame to its next instruction. */
  function NextPc(s: State): (r: State)
    requires |s.frames| > 0
    ensures |r.frames| == |s.frames| && Current(r) == Current(s).(pc := Current(s).pc + 1)
    ensures r.stack == s.stack && r.heap == s.heap && r.openUpvalues == s.openUpvalues
  {
    WithCurrent(s, Current(s).(pc := Current(s).pc + 1))
  }

  /** `Vec::pop` with its result dropped: nothing happens on an empty stack. */
  function DropTop(st: seq<Value>): (r: seq<Value>)
    ensures |st| > 0 ==> r == st[..|st| - 1]
    ensures |st| == 0 ==> r == []
  {
    if |st| == 0 then st else st[..|st| - 1]
  }

  /** Allocate an object at `next`. */
  function Alloc(s: State, o: Obj): (r: (State, Ref))
    ensures r.1 == s.next && r.0.heap == s.heap[s.next := o] && r.0.next == s.next + 1
    ensures r.0.stack == s.stack && r.0.frames == s.frames && r.0.openUpvalues == s.openUpvalues
    ensures r.0.protected == s.protected && r.0.globals == s.globals
    ensures Fresh(s) ==> Fresh(r.0) && s.next !in s.heap && |r.0.heap| == |s.heap| + 1
  {
    (s.(heap := s.heap[s.next := o], next := s.next + 1), s.next)
  }

  // ---------------------------------------------------------------------
  // Arithmetic, comparison and logic (`stack_get_number`,
  // `stack_get_bool`, `stack_get_number1`).
  // ---------------------------------------------------------------------

  /** Pop the two operands, right one first; a missing or non-number
      operand is a `TypeError` (`unwrap_or(Value::Nil)`). */
  function PopNumbers(st: seq<Value>): (r: Option<(seq<Value>, real, real)>)
    ensures r.Some? <==> |st| >= 2 && st[|st| - 1].Number? && st[|st| - 2].Number?
    ensures r.Some? ==> r.value == (st[..|st| - 2], st[|st| - 2].n, st[|st| - 1].n)
  {
    if |st| >= 2 && st[|st| - 1].Number? && st[|st| - 2].Number? then
      Some((st[..|st| - 2], st[|st| - 2].n, st[|st| - 1].n))
    else None
  }

  function PopBools(st: seq<Value>): (r: Option<(seq<Value>, bool, bool)>)
    ensures r.Some? <==> |st| >= 2 && st[|st| - 1].Bool? && st[|st| - 2].Bool?
    ensures r.Some? ==> r.value == (st[..|st| - 2], st[|st| - 2].b, st[|st| - 1].b)
  {
    if |st| >= 2 && st[|st| - 1].Bool? && st[|st| - 2].Bool? then
      Some((st[..|st| - 2], st[|st| - 2].b, st[|st| - 1].b))
    else None
  }

  /** `f64 as i64` toward zero (saturation not modelled). */
  function Trunc(x: real): int {
    if x >= 0.0 then x.Floor else -((-x).Floor)
  }

  /** Rust's `%` on integers: the remainder takes the sign of the dividend. */
  function RustRem(a: int, b: int): (r: int)
    requires b != 0
    ensures -(if b < 0 then -b else b) < r < (if b < 0 then -b else b)
    ensures a >= 0 ==> r >= 0
    ensures a < 0 ==> r <= 0
  {
    var m := if b < 0 then -b else b;
    if a >= 0 then a % m else -((-a) % m)
  }

  /** The guard of `Div` and `Mod`. */
  const DivGuard: real := 0.00001

  /** The binary number instructions. `Div` and `Mod` raise an
      `ArithmError` when the divisor is below 1e-5; `Mod` truncates both
      operands to integers first, and a divisor that truncates to 0 makes
      the Rust `%` panic. */
  function NumberOp(s: State, op: Instr): (r: Outcome)
    requires |s.frames| > 0
    requires op.Add? || op.Sub? || op.Mul? || op.Div? || op.Mod? || op.Gt? || op.Lt? || op.Ge? || op.Le?
    ensures PopNumbers(s.stack).None? ==> r == Failed(TypeError)
    ensures r.Running? ==> |r.state.stack| == |s.stack| - 1 && r.state.heap == s.heap
    ensures r.Running? ==> |r.state.frames| == |s.frames| && Current(r.state).pc == Current(s).pc + 1
    ensures r.Running? && op.Add? ==> r.state.stack == s.stack[..|s.stack| - 2] + [Number(s.stack[|s.stack| - 2].n + s.stack[|s.stack| - 1].n)]
    ensures (op.Div? || op.Mod?) && PopNumbers(s.stack).Some? ==> (r == Failed(ArithmError) <==> s.stack[|s.stack| - 1].n < DivGuard)
  {
    match PopNumbers(s.stack)
    case None => Failed(TypeError)
    case Some((rest, a, b)) =>
      var res: Res<Value> :=
        match op
        case Add => Ok(Number(a + b))
        case Sub => Ok(Number(a - b))
        case Mul => Ok(Number(a * b))
        case Div => if b < DivGuard then Raise(ArithmError) else Ok(Number(a / b))
        case Mod =>
          if b < DivGuard then Raise(ArithmError)
          else if Trunc(b) == 0 then Crash
          else Ok(Number(RustRem(Trunc(a), Trunc(b)) as real))
        case Gt => Ok(Bool(a > b))
        case Lt => Ok(Bool(a < b))
        case Ge => Ok(Bool(a >= b))
        case Le => Ok(Bool(a <= b));
      match res
      case Ok(v) => Running(NextPc(s.(stack := rest + [v])))
      case Raise(e) => Failed(e)
      case Crash => Panic
  }

  /** `Negate`. */
  function NegateOp(s: State): (r: Outcome)
    requires |s.frames| > 0
    ensures r.Failed? <==> |s.stack| == 0 || !s.stack[|s.stack| - 1].Number?
    ensures r.Running? ==> r.state.stack == s.stack[..|s.stack| - 1] + [Number(-s.stack[|s.stack| - 1].n)]
  {
    if |s.stack| > 0 && s.stack[|s.stack| - 1].Number? then
      Running(NextPc(s.(stack := s.stack[..|s.stack| - 1] + [Number(-s.stack[|s.stack| - 1].n)])))
    else Failed(TypeError)
  }

  /** `And` and `Or`. */
  function LogicOp(s: State, isAnd: bool): (r: Outcome)
    requires |s.frames| > 0
    ensures r.Failed? <==> PopBools(s.stack).None?
    ensures r.Running? ==> |r.state.stack| == |s.stack| - 1 && r.state.stack[..|s.stack| - 2] == s.stack[..|s.stack| - 2]
    ensures r.Running? ==>
      r.state.stack[|s.stack| - 2] ==
      Bool(if isAnd then s.stack[|s.stack| - 2].b && s.stack[|s.stack| - 1].b else s.stack[|s.stack| - 2].b || s.stack[|s.stack| - 1].b)
  {
    match PopBools(s.stack)
    case None => Failed(TypeError)
    case Some((rest, a, b)) => Running(NextPc(s.(stack := rest + [Bool(if isAnd then a && b else a || b)])))
  }

  /** `Eq` and `Ne`: both operands are popped with `unwrap`, so a short
      stack panics; the comparison is the derived `PartialEq`. */
  function EqualityOp(s: State, negate: bool): (r: Outcome)
    requires |s.frames| > 0
    ensures r.Panic? <==> |s.stack| < 2
    ensures r.Running? ==>
      r.state.stack == s.stack[..|s.stack| - 2] + [Bool(ValueEq(s.stack[|s.stack| - 2], s.stack[|s.stack| - 1]) != negate)]
  {
    if |s.stack| < 2 then Panic
    else
      var eq := ValueEq(s.stack[|s.stack| - 2], s.stack[|s.stack| - 1]);
      Running(NextPc(s.(stack := s.stack[..|s.stack| - 2] + [Bool(if negate then !eq else eq)])))
  }

  // ---------------------------------------------------------------------
  // Variables.
  // ---------------------------------------------------------------------

  /** `GetLocal(x)`: push slot `x` of the current frame. */
  function GetLocalOp(s: State, x: nat): (r: Outcome)
    requires |s.frames| > 0
    ensures r.Panic? <==> x + Current(s).bottom >= |s.stack|
    ensures r.Running? ==> r.state.stack == s.stack + [s.stack[x + Current(s).bottom]]
  {
    var slot := x + Current(s).bottom;
    if slot < |s.stack| then Running(NextPc(s.(stack := s.stack + [s.stack[slot]]))) else Panic
  }

  /** `SetLocal(x)`: copy the top of the stack into slot `x` of the
      current frame, leaving it on the stack. */
  function SetLocalOp(s: State, x: nat): (r: Outcome)
    requires |s.frames| > 0
    ensures r.Panic? <==> |s.stack| == 0 || x + Current(s).bottom >= |s.stack|
    ensures r.Running? ==> |r.state.stack| == |s.stack| && r.state.stack[x + Current(s).bottom] == s.stack[|s.stack| - 1]
    ensures r.Running? ==> forall i :: 0 <= i < |s.stack| && i != x + Current(s).bottom ==> r.state.stack[i] == s.stack[i]
  {
    var slot := x + Current(s).bottom;
    if |s.stack| == 0 || slot >= |s.stack| then Panic
    else Running(NextPc(s.(stack := s.stack[slot := s.stack[|s.stack| - 1]])))
  }

  /** `GetGlobal(x)`. */
  function GetGlobalOp(s: State, x: nat): (r: Outcome)
    requires |s.frames| > 0
    ensures r.Panic? <==> x >= |s.globals|
    ensures r.Running? ==> r.state.stack == s.stack + [s.globals[x]]
  {
    if x < |s.globals| then Running(NextPc(s.(stack := s.stack + [s.globals[x]]))) else Panic
  }

  /** The upvalue object behind upvalue `x` of the current closure. */
  function UpvalueObject(s: State, x: nat): (r: Option<(Ref, UpValue)>)
    requires |s.frames| > 0
    ensures r.Some? <==> x < |Current(s).upvalues| && Current(s).upvalues[x] in s.heap && s.heap[Current(s).upvalues[x]].UpValueObj?
    ensures r.Some? ==> r.value.0 == Current(s).upvalues[x] && r.value.1 == s.heap[r.value.0].upvalue
  {
    if x < |Current(s).upvalues| && Current(s).upvalues[x] in s.heap && s.heap[Current(s).upvalues[x]].UpValueObj? then
      var u := Current(s).upvalues[x];
      Some((u, s.heap[u].upvalue))
    else None
  }

  /** `get_upvalue`: an open upvalue reads its stack slot, a closed one its
      own copy. */
  function GetUpvalueOp(s: State, x: nat): (r: Outcome)
    requires |s.frames| > 0
    ensures UpvalueObject(s, x).None? ==> r.Panic?
    ensures r.Running? ==> |r.state.stack| == |s.stack| + 1 && r.state.stack[..|s.stack|] == s.stack && r.state.heap == s.heap
    ensures r.Running? && UpvalueObject(s, x).value.1.Closed? ==> r.state.stack[|s.stack|] == UpvalueObject(s, x).value.1.value
    ensures r.Running? && UpvalueObject(s, x).value.1.OpenRef? ==>
      UpvalueObject(s, x).value.1.slot < |s.stack| && r.state.stack[|s.stack|] == s.stack[UpvalueObject(s, x).value.1.slot]
  {
    match UpvalueObject(s, x)
    case None => Panic
    case Some((_, Closed(v))) => Running(NextPc(s.(stack := s.stack + [v])))
    case Some((_, OpenRef(slot))) => if slot < |s.stack| then Running(NextPc(s.(stack := s.stack + [s.stack[slot]]))) else Panic
  }

  /** `set_upvalue` with the top of the stack, which stays there: an open
      upvalue writes its stack slot, a closed one its own copy. */
  function SetUpvalueOp(s: State, x: nat): (r: Outcome)
    requires |s.frames| > 0
    ensures |s.stack| == 0 || UpvalueObject(s, x).None? ==> r.Panic?
    ensures r.Running? ==> |r.state.stack| == |s.stack| && r.state.heap.Keys == s.heap.Keys
  {
    if |s.stack| == 0 then Panic
    else
      var v := s.stack[|s.stack| - 1];
      match UpvalueObject(s, x)
      case None => Panic
      case Some((u, Closed(_))) => Running(NextPc(s.(heap := s.heap[u := UpValueObj(s.heap[u].marked, Closed(v))])))
      case Some((_, OpenRef(slot))) => if slot < |s.stack| then Running(NextPc(s.(stack := s.stack[slot := v]))) else Panic
  }

  /** Lemma: reading an upvalue right after writing it gives the value
      written, whether the upvalue is open or closed. */
  lemma SetThenGetUpvalue(s: State, x: nat)
    requires |s.frames| > 0 && SetUpvalueOp(s, x).Running?
    ensures GetUpvalueOp(SetUpvalueOp(s, x).state, x).Running?
    ensures var t := GetUpvalueOp(SetUpvalueOp(s, x).state, x).state; t.stack[|t.stack| - 1] == s.stack[|s.stack| - 1]
  {
  }

  // ---------------------------------------------------------------------
  // Collections.
  // ---------------------------------------------------------------------

  /** The dictionary behind a `Dictionary` or `Error` value. */
  function DictAt(h: Objects, d: Ref): Option<Entries> {
    if d in h && h[d].DictObj? then Some(h[d].entries) else None
  }

  function ArrayAt(h: Objects, a: Ref): Option<seq<Value>> {
    if a in h && h[a].ArrayObj? then Some(h[a].elems) else None
  }

  /** Indexing of `GetCollection`. */
  function Index(h: Objects, clct: Value, idx: Value): (r: Res<Value>)
    ensures r.Raise? ==> r.error in {GeneralError, TypeError, IndexOutOfBound}
    ensures r.Raise? && r.error == TypeError <==> match clct
      case Vec2(_, _) => !idx.Number?
      case Vec3(_, _, _) => !idx.Number?
      case Array(_) => !idx.Number?
      case Dictionary(_) => !idx.String?
      case Error(_) => !idx.String?
      case _ => true
  {
    match clct
    case Vec2(x, y) =>
      if !idx.Number? then Raise(TypeError)
      else if AsIndex(idx.n) == 0 then Ok(Number(x))
      else if AsIndex(idx.n) == 1 then Ok(Number(y))
      else Raise(GeneralError)
    case Vec3(x, y, z) =>
      if !idx.Number? then Raise(TypeError)
      else if AsIndex(idx.n) == 0 then Ok(Number(x))
      else if AsIndex(idx.n) == 1 then Ok(Number(y))
      else if AsIndex(idx.n) == 2 then Ok(Number(z))
      else Raise(GeneralError)
    case Array(a) =>
      if !idx.Number? then Raise(TypeError)
      else if idx.n < 0.0 then Raise(IndexOutOfBound)
      else
        (match ArrayAt(h, a)
        case None => Crash
        case Some(elems) => Ok(if AsIndex(idx.n) < |elems| then elems[AsIndex(idx.n)] else Nil))
    case Dictionary(d) => DictGet(h, d, idx)
    case Error(d) => DictGet(h, d, idx)
    case _ => Raise(TypeError)
  }

  function DictGet(h: Objects, d: Ref, idx: Value): (r: Res<Value>)
    ensures r.Raise? <==> !idx.String?
    ensures r.Raise? ==> r.error == TypeError
  {
    if !idx.String? then Raise(TypeError)
    else
      match DictAt(h, d)
      case None => Crash
      case Some(e) => Ok(match Lookup(e, idx.s) case Some(v) => v case None => Nil)
  }

  /** Assignment of `SetCollection`: an array slot is overwritten only
      within bounds, a dictionary entry is overwritten or added. */
  function Assign(h: Objects, clct: Value, idx: Value, val: Value): (r: Res<Objects>)
    ensures r.Ok? ==> r.value.Keys == h.Keys
    ensures r.Raise? ==> r.error in {TypeError, IndexOutOfBound}
    ensures !(clct.Array? || clct.Dictionary? || clct.Error?) ==> r == Raise(TypeError)
  {
    match clct
    case Array(a) =>
      if !idx.Number? then Raise(TypeError)
      else if idx.n < 0.0 then Raise(IndexOutOfBound)
      else
        (match ArrayAt(h, a)
        case None => Crash
        case Some(elems) =>
          var i := AsIndex(idx.n);
          if i < |elems| then Ok(h[a := ArrayObj(h[a].marked, elems[i := val])]) else Raise(IndexOutOfBound))
    case Dictionary(d) => DictSet(h, d, idx, val)
    case Error(d) => DictSet(h, d, idx, val)
    case _ => Raise(TypeError)
  }

  function DictSet(h: Objects, d: Ref, idx: Value, val: Value): (r: Res<Objects>)
    ensures r.Ok? ==> r.value.Keys == h.Keys
    ensures r.Raise? <==> !idx.String?
    ensures r.Raise? ==> r.error == TypeError
  {
    if !idx.String? then Raise(TypeError)
    else
      match DictAt(h, d)
      case None => Crash
      case Some(e) => Ok(h[d := DictObj(h[d].marked, Insert(e, idx.s, val))])
  }

  /** `GetCollection`: pop the index, then the collection, push the
      element. */
  function GetCollectionOp(s: State): (r: Outcome)
    requires |s.frames| > 0
    ensures |s.stack| < 2 ==> r.Panic?
    ensures |s.stack| >= 2 ==> match Index(s.heap, s.stack[|s.stack| - 2], s.stack[|s.stack| - 1])
      case Ok(v) => r.Running? && r.state.stack == s.stack[..|s.stack| - 2] + [v] && r.state.heap == s.heap
      case Raise(e) => r == Failed(e)
      case Crash => r.Panic?
  {
    if |s.stack| < 2 then Panic
    else
      match Index(s.heap, s.stack[|s.stack| - 2], s.stack[|s.stack| - 1])
      case Ok(v) => Running(NextPc(s.(stack := s.stack[..|s.stack| - 2] + [v])))
      case Raise(e) => Failed(e)
      case Crash => Panic
  }

  /** `SetCollection`: pop the value, the index and the collection, and
      assign; nothing is pushed. */
  function SetCollectionOp(s: State): (r: Outcome)
    requires |s.frames| > 0
    ensures |s.stack| < 3 ==> r.Panic?
    ensures |s.stack| >= 3 ==> match Assign(s.heap, s.stack[|s.stack| - 3], s.stack[|s.stack| - 2], s.stack[|s.stack| - 1])
      case Ok(h) => r.Running? && r.state.stack == s.stack[..|s.stack| - 3] && r.state.heap == h
      case Raise(e) => r == Failed(e)
      case Crash => r.Panic?
  {
    if |s.stack| < 3 then Panic
    else
      match Assign(s.heap, s.stack[|s.stack| - 3], s.stack[|s.stack| - 2], s.stack[|s.stack| - 1])
      case Ok(h) => Running(NextPc(s.(stack := s.stack[..|s.stack| - 3], heap := h)))
      case Raise(e) => Failed(e)
      case Crash => Panic
  }

  /** Lemma: array indexing. A negative index is an `IndexOutOfBound`
      error, an index past the end reads `Nil` but cannot be assigned, and
      an index within bounds reads and writes that element. */
  lemma ArrayIndexing(h: Objects, a: Ref, x: real, val: Value)
    requires a in h && h[a].ArrayObj?
    ensures x < 0.0 ==> Index(h, Array(a), Number(x)) == Raise(IndexOutOfBound)
    ensures x < 0.0 ==> Assign(h, Array(a), Number(x), val) == Raise(IndexOutOfBound)
    ensures x >= 0.0 && AsIndex(x) >= |h[a].elems| ==> Index(h, Array(a), Number(x)) == Ok(Nil)
    ensures x >= 0.0 && AsIndex(x) >= |h[a].elems| ==> Assign(h, Array(a), Number(x), val) == Raise(IndexOutOfBound)
    ensures x >= 0.0 && AsIndex(x) < |h[a].elems| ==> Index(h, Array(a), Number(x)) == Ok(h[a].elems[AsIndex(x)])
  {
  }

  /** Lemma: after an assignment succeeds, indexing the same collection at
      the same index reads the value assigned, and every other array slot
      or dictionary key reads as before. */
  lemma AssignThenIndex(h: Objects, clct: Value, idx: Value, val: Value, other: Value)
    requires Assign(h, clct, idx, val).Ok?
    requires (clct.Dictionary? || clct.Error?) ==> KeysUnique(h[if clct.Dictionary? then clct.dict else clct.err].entries)
    ensures Index(Assign(h, clct, idx, val).value, clct, idx) == Ok(val)
    ensures clct.Array? && other.Number? && other.n >= 0.0 && AsIndex(other.n) != AsIndex(idx.n) ==>
      Index(Assign(h, clct, idx, val).value, clct, other) == Index(h, clct, other)
    ensures (clct.Dictionary? || clct.Error?) && other.String? && other != idx ==>
      Index(Assign(h, clct, idx, val).value, clct, other) == Index(h, clct, other)
  {
    if clct.Dictionary? || clct.Error? {
      var d := if clct.Dictionary? then clct.dict else clct.err;
      InsertLookup(h[d].entries, idx.s, val, if other.String? then other.s else idx.s);
    }
  }

  /** Lemma: assigning into a dictionary adds an entry exactly when the
      key was absent, and keeps the keys distinct. */
  lemma DictAssignGrowsOnNewKey(h: Objects, d: Ref, k: string, val: Value)
    requires d in h && h[d].DictObj? && KeysUnique(h[d].entries)
    ensures Assign(h, Dictionary(d), String(k), val).Ok?
    ensures var e := Assign(h, Dictionary(d), String(k), val).value[d].entries;
      KeysUnique(e) && |e| == (if Lookup(h[d].entries, k).Some? then |h[d].entries| else |h[d].entries| + 1)
  {
    InsertLookup(h[d].entries, k, val, k);
  }

  // ---------------------------------------------------------------------
  // Building collections (`new_array`, `new_dict`, `new_matrix`).
  // ---------------------------------------------------------------------

  /** The loop of `new_array`: pop `n` values, collecting them in the
      order they come off the stack. */
  function PopValues(st: seq<Value>, n: nat): (r: (seq<Value>, seq<Value>))
    requires n <= |st|
    ensures |r.1| == n
  {
    if n == 0 then (st, [])
    else
      var (rest, popped) := PopValues(st[..|st| - 1], n - 1);
      (rest, [st[|st| - 1]] + popped)
  }

  function Reverse(s: seq<Value>): (r: seq<Value>)
    ensures |r| == |s|
  {
    if |s| == 0 then [] else Reverse(s[1..]) + [s[0]]
  }

  /** `new_array(n)`: the popped values, reversed. */
  function NewArray(st: seq<Value>, n: nat): (r: (seq<Value>, seq<Value>))
    requires n <= |st|
  {
    var (rest, popped) := PopValues(st, n);
    (rest, Reverse(popped))
  }

  /** Lemma: `new_array(n)` removes the top `n` values and the array holds
      them in the order they were pushed. */
  lemma {:induction false} NewArrayKeepsPushOrder(st: seq<Value>, n: nat)
    requires n <= |st|
    ensures NewArray(st, n).0 == st[..|st| - n]
    ensures NewArray(st, n).1 == st[|st| - n..]
    decreases n
  {
    if n > 0 {
      var st' := st[..|st| - 1];
      NewArrayKeepsPushOrder(st', n - 1);
      var popped := PopValues(st', n - 1).1;
      assert PopValues(st, n).1 == [st[|st| - 1]] + popped;
      ReverseCons(st[|st| - 1], popped);
      assert st'[|st'| - (n - 1)..] + [st[|st| - 1]] == st[|st| - n..];
    }
  }

  lemma ReverseCons(x: Value, s: seq<Value>)
    ensures Reverse([x] + s) == Reverse(s) + [x]
  {
    assert ([x] + s)[1..] == s;
  }

  /** The loop of `new_dict`, reading the stack below height `top`: take
      the value, then its key, which must be a string (anything else is a
      panic), insert the pair, and go on two slots lower. A later insertion
      of the same key overwrites an earlier one. */
  function BuildDict(st: seq<Value>, top: nat, n: nat, acc: Entries): Option<Entries>
    requires 2 * n <= top <= |st|
  {
    if n == 0 then Some(acc)
    else if !st[top - 2].String? then None
    else BuildDict(st, top - 2, n - 1, Insert(acc, st[top - 2].s, st[top - 1]))
  }

  /** The `n` pairs starting at `lo` have string keys. */
  predicate StringKeys(st: seq<Value>, lo: nat, n: nat)
    requires lo + 2 * n <= |st|
  {
    forall i :: 0 <= i < n ==> st[lo + 2 * i].String?
  }

  lemma StringKeysStep(st: seq<Value>, top: nat, n: nat)
    requires 0 < n && 2 * n <= top <= |st|
    ensures StringKeys(st, top - 2 * n, n) <==> StringKeys(st, top - 2 - 2 * (n - 1), n - 1) && st[top - 2].String?
  {
    var lo := top - 2 * n;
    assert top - 2 - 2 * (n - 1) == lo;
    if StringKeys(st, lo, n) {
      assert st[lo + 2 * (n - 1)].String?;
    }
  }

  /** The key a slot holds, if it is a string. */
  function KeyOf(v: Value): string {
    if v.String? then v.s else ""
  }

  /** The `n` pairs starting at `lo`, as a dictionary listing in push
      order. */
  function PushedPairs(st: seq<Value>, lo: nat, n: nat): (e: Entries)
    requires lo + 2 * n <= |st|
    ensures |e| == n
  {
    if n == 0 then []
    else PushedPairs(st, lo, n - 1) + [(KeyOf(st[lo + 2 * n - 2]), st[lo + 2 * n - 1])]
  }

  /** Lemma: `new_dict(n)` panics exactly when a key slot holds a
      non-string. */
  lemma {:induction false} BuildDictSucceeds(st: seq<Value>, top: nat, n: nat, acc: Entries)
    requires 2 * n <= top <= |st|
    ensures BuildDict(st, top, n, acc).Some? <==> StringKeys(st, top - 2 * n, n)
    decreases n
  {
    if n > 0 {
      StringKeysStep(st, top, n);
      if st[top - 2].String? {
        BuildDictUnfold(st, top, n, acc);
        BuildDictSucceeds(st, top - 2, n - 1, Insert(acc, st[top - 2].s, st[top - 1]));
      } else {
        BuildDictFailsHere(st, top, n, acc);
      }
    }
  }

  /** Lemma: the dictionary `new_dict` builds, `d`, has distinct keys. */
  lemma {:induction false} BuildDictKeysUnique(st: seq<Value>, top: nat, n: nat, acc: Entries, d: Entries)
    requires 2 * n <= top <= |st| && KeysUnique(acc)
    requires BuildDict(st, top, n, acc) == Some(d)
    ensures KeysUnique(d)
    decreases n
  {
    if n > 0 {
      var acc' := Insert(acc, st[top - 2].s, st[top - 1]);
      InsertLookup(acc, st[top - 2].s, st[top - 1], "");
      BuildDictKeysUnique(st, top - 2, n - 1, acc', d);
    }
  }

  /** Lemma: the dictionary `new_dict(n)` builds reads like the pushed
      pairs listed in push order in front of the starting dictionary: each
      key reads the value of its EARLIEST pushed pair, because the pairs
      are inserted from the top of the stack down and deeper pairs
      overwrite later ones. */
  lemma {:induction false} NewDictEarliestPairWins(st: seq<Value>, top: nat, n: nat, acc: Entries, k: string)
    requires 2 * n <= top <= |st|
    requires BuildDict(st, top, n, acc).Some?
    ensures Lookup(BuildDict(st, top, n, acc).value, k) == Lookup(PushedPairs(st, top - 2 * n, n) + acc, k)
    decreases n
  {
    if n == 0 {
      assert PushedPairs(st, top, 0) + acc == acc;
    } else {
      var key := st[top - 2].s;
      var v := st[top - 1];
      BuildDictUnfold(st, top, n, acc);
      NewDictEarliestPairWins(st, top - 2, n - 1, Insert(acc, key, v), k);
      PushedPairsUnfold(st, top, n);
      InsertBehindPrefix(PushedPairs(st, top - 2 - 2 * (n - 1), n - 1), key, v, acc, k);
    }
  }

  /** Appending a pair to the prefix reads like inserting it into the rest. */
  lemma InsertBehindPrefix(pre: Entries, key: string, v: Value, acc: Entries, k: string)
    ensures Lookup((pre + [(key, v)]) + acc, k) == Lookup(pre + Insert(acc, key, v), k)
  {
    LookupConcat(pre + [(key, v)], acc, k);
    LookupConcat(pre, [(key, v)], k);
    LookupCons([(key, v)], k);
    LookupConcat(pre, Insert(acc, key, v), k);
    InsertReads(acc, key, v, k);
  }

  lemma BuildDictFailsHere(st: seq<Value>, top: nat, n: nat, acc: Entries)
    requires 0 < n && 2 * n <= top <= |st| && !st[top - 2].String?
    ensures BuildDict(st, top, n, acc).None?
  {
  }

  lemma BuildDictUnfold(st: seq<Value>, top: nat, n: nat, acc: Entries)
    requires 0 < n && 2 * n <= top <= |st| && st[top - 2].String?
    ensures BuildDict(st, top, n, acc) == BuildDict(st, top - 2, n - 1, Insert(acc, st[top - 2].s, st[top - 1]))
  {
  }

  lemma PushedPairsUnfold(st: seq<Value>, top: nat, n: nat)
    requires 0 < n && 2 * n <= top <= |st| && st[top - 2].String?
    ensures PushedPairs(st, top - 2 * n, n) == PushedPairs(st, top - 2 - 2 * (n - 1), n - 1) + [(st[top - 2].s, st[top - 1])]
  {
    assert top - 2 - 2 * (n - 1) == top - 2 * n;
  }

  /** `InitArray`, `InitDict` and `InitMatrix` collect first, with
      `run_gc` as written: the values about to be popped are still on the
      stack and so are roots, while `Error` values and the open upvalue
      list are not. */
  function Collect(s: State): (r: State)
    ensures r.stack == s.stack && r.frames == s.frames && r.openUpvalues == s.openUpvalues
    ensures r.next == s.next && r.heap.Keys <= s.heap.Keys
    ensures Fresh(s) ==> Fresh(r)
    ensures |s.heap| < Gc.Threshold ==> r.heap == s.heap
    ensures |s.heap| >= Gc.Threshold && Gc.NoneMarked(s.heap) ==>
      forall a :: a in r.heap <==> a in s.heap && Gc.Reaches(s.heap, Gc.TracedRefs(s.stack, false), a, false)
  {
    s.(heap := Gc.RunGc(s.heap, s.stack))
  }

  /** `InitArray(n)`. */
  function InitArrayOp(s: State, n: nat): (r: Outcome)
    requires |s.frames| > 0
    ensures r.Panic? <==> |s.stack| < n
    ensures r.Running? ==> var s1 := Collect(s); var a := s1.next;
      r.state.stack == s.stack[..|s.stack| - n] + [Array(a)] &&
      r.state.heap == s1.heap[a := ArrayObj(false, s.stack[|s.stack| - n..])]
  {
    if |s.stack| < n then Panic
    else
      var s1 := Collect(s);
      var (rest, elems) := NewArray(s1.stack, n);
      NewArrayKeepsPushOrder(s1.stack, n);
      var (s2, a) := Alloc(s1.(stack := rest), ArrayObj(false, elems));
      Running(NextPc(s2.(stack := s2.stack + [Array(a)])))
  }

  /** `InitDict(n)`: pops `n` key/value pairs; a non-string key panics. */
  function InitDictOp(s: State, n: nat): (r: Outcome)
    requires |s.frames| > 0
    ensures r.Panic? <==> |s.stack| < 2 * n || !StringKeys(s.stack, |s.stack| - 2 * n, n)
    ensures r.Running? ==> var s1 := Collect(s); var d := s1.next;
      r.state.stack == s.stack[..|s.stack| - 2 * n] + [Dictionary(d)] &&
      BuildDict(s.stack, |s.stack|, n, []).Some? &&
      d in r.state.heap && r.state.heap[d] == DictObj(false, BuildDict(s.stack, |s.stack|, n, []).value)
  {
    if |s.stack| < 2 * n then Panic
    else
      var s1 := Collect(s);
      BuildDictSucceeds(s1.stack, |s1.stack|, n, []);
      match BuildDict(s1.stack, |s1.stack|, n, [])
      case None => Panic
      case Some(entries) =>
        var (s2, d) := Alloc(s1.(stack := s1.stack[..|s1.stack| - 2 * n]), DictObj(false, entries));
        Running(NextPc(s2.(stack := s2.stack + [Dictionary(d)])))
  }

  /** `InitMatrix(row, col)`: a zero matrix of `row * col` entries. */
  function InitMatrixOp(s: State, rows: nat, cols: nat): (r: Outcome)
    requires |s.frames| > 0
    ensures r.Running? && |r.state.stack| == |s.stack| + 1 && r.state.stack[..|s.stack|] == s.stack
    ensures var m := r.state.stack[|s.stack|];
      m.Matrix? && m.mat in r.state.heap &&
      r.state.heap[m.mat] == MatrixObj(false, rows, cols, seq(rows * cols, _ => 0.0))
  {
    var s1 := Collect(s);
    var (s2, m) := Alloc(s1, MatrixObj(false, rows, cols, seq(rows * cols, _ => 0.0)));
    Running(NextPc(s2.(stack := s2.stack + [Matrix(m)])))
  }

  /** Lemma (as written): once the heap is large enough to collect, an
      `InitArray(0)` frees the dictionary that an `Error` value on the
      stack still points at. */
  lemma InitArrayFreesErrorDictionary(s: State, d: Ref)
    requires |s.frames| > 0 && Fresh(s) && Gc.NoneMarked(s.heap) && |s.heap| >= Gc.Threshold
    requires s.stack == [Error(d)] && d in s.heap
    ensures InitArrayOp(s, 0).Running? && d !in InitArrayOp(s, 0).state.heap
  {
    Gc.RunGcFreesErrorDictionary(s.heap, d);
  }

  // ---------------------------------------------------------------------
  // Jumps.
  // ---------------------------------------------------------------------

  /** `Jump(x)`: relative to the jump itself. */
  function JumpOp(s: State, x: int): (r: Outcome)
    requires |s.frames| > 0
    ensures r.Running? && |r.state.frames| == |s.frames| && Current(r.state).pc == Current(s).pc + x
    ensures r.state.stack == s.stack
  {
    Running(WithCurrent(s, Current(s).(pc := Current(s).pc + x)))
  }

  /** `JumpIfNot(x)`: the condition must be a `Bool`; it is popped, and
      `false` jumps by `x` while `true` falls through. */
  function JumpIfNotOp(s: State, x: int): (r: Outcome)
    requires |s.frames| > 0
    ensures |s.stack| == 0 ==> r.Panic?
    ensures |s.stack| > 0 && !s.stack[|s.stack| - 1].Bool? ==> r == Failed(TypeError)
    ensures |s.stack| > 0 && s.stack[|s.stack| - 1].Bool? ==>
      r.Running? && r.state.stack == s.stack[..|s.stack| - 1] && |r.state.frames| == |s.frames| &&
      Current(r.state).pc == Current(s).pc + (if s.stack[|s.stack| - 1].b then 1 else x)
  {
    if |s.stack| == 0 then Panic
    else if !s.stack[|s.stack| - 1].Bool? then Failed(TypeError)
    else
      var s1 := if s.stack[|s.stack| - 1].b then NextPc(s) else WithCurrent(s, Current(s).(pc := Current(s).pc + x));
      Running(s1.(stack := s1.stack[..|s1.stack| - 1]))
  }

  // ---------------------------------------------------------------------
  // Calls.
  // ---------------------------------------------------------------------

  /** `Call(x)` (`protect` false) and `TryCall(x)` (`protect` true). The
      callee sits below its `x` arguments. A closure needs exactly
      `parameter_num` arguments; its frame starts at the first argument and
      its remaining locals are reserved as `Nil`s. A native function is
      applied to the stack and its result replaces the top slot. */
  function CallOp(s: State, x: nat, protect: bool, native: Native): (r: Outcome)
    requires |s.frames| > 0
    ensures |s.stack| < x + 1 ==> r.Panic?
    ensures |s.stack| >= x + 1 && !s.stack[|s.stack| - x - 1].Closure? && !s.stack[|s.stack| - x - 1].NativeFunction? ==> r == Failed(CallError)
  {
    if |s.stack| < x + 1 then Panic
    else
      match s.stack[|s.stack| - x - 1]
      case Closure(c) =>
        if c !in s.heap || !s.heap[c].ClosureObj? then Panic
        else
          var o := s.heap[c];
          if o.proto.parameterNum != x then Failed(CallError)
          else if o.proto.numLocals < o.proto.parameterNum then Panic
          else
            var s1 := NextPc(s).(protected := protect);
            var frame := Frame(|s.stack| - x, o.site, o.proto, o.upvalues, 0);
            Running(s1.(stack := s1.stack + Nils(o.proto.numLocals - x), frames := s1.frames + [frame]))
      case NativeFunction(f) =>
        var (st, v) := native(f, s.stack, x, protect);
        Running(NextPc(s.(stack := DropTop(st) + [v])))
      case _ => Failed(CallError)
  }

  /** Lemma: calling a closure. The call fails with `CallError` exactly
      when the argument count differs from the arity; otherwise the caller
      resumes after the call, a frame whose bottom is the first argument is
      pushed, and the stack grows by `num_locals - parameter_num` `Nil`s. */
  lemma CallClosure(s: State, x: nat, protect: bool, native: Native)
    requires |s.frames| > 0 && |s.stack| >= x + 1
    requires var c := s.stack[|s.stack| - x - 1]; c.Closure? && c.closure in s.heap && s.heap[c.closure].ClosureObj?
    requires var o := s.heap[s.stack[|s.stack| - x - 1].closure]; o.proto.numLocals >= o.proto.parameterNum
    ensures var o := s.heap[s.stack[|s.stack| - x - 1].closure];
      CallOp(s, x, protect, native) == Failed(CallError) <==> o.proto.parameterNum != x
    ensures var o := s.heap[s.stack[|s.stack| - x - 1].closure]; var r := CallOp(s, x, protect, native);
      o.proto.parameterNum == x ==>
        r.Running? && r.state.protected == protect &&
        |r.state.frames| == |s.frames| + 1 &&
        r.state.frames[|s.frames| - 1] == Current(s).(pc := Current(s).pc + 1) &&
        Current(r.state) == Frame(|s.stack| - x, o.site, o.proto, o.upvalues, 0) &&
        r.state.stack == s.stack + Nils(o.proto.numLocals - o.proto.parameterNum) &&
        r.state.heap == s.heap && r.state.openUpvalues == s.openUpvalues
  {
  }

  // ---------------------------------------------------------------------
  // Closures and upvalues.
  // ---------------------------------------------------------------------

  /** The upvalue object `u` points at stack slot `slot`. */
  predicate OpenAt(h: Objects, u: Ref, slot: nat) {
    u in h && h[u].UpValueObj? && h[u].upvalue == OpenRef(slot)
  }

  /** The search of `Load`: the first open upvalue on `slot`. A freed
      object in the list is passed over. */
  function FindOpen(h: Objects, open: seq<Ref>, slot: nat): (r: Option<Ref>)
    ensures r.Some? ==> r.value in open && OpenAt(h, r.value, slot)
    ensures r.None? ==> forall u :: u in open ==> !OpenAt(h, u, slot)
  {
    if |open| == 0 then None
    else if OpenAt(h, open[0], slot) then Some(open[0])
    else FindOpen(h, open[1..], slot)
  }

  /** One upvalue declaration of a chunk being loaded: a local of the
      current frame reuses the open upvalue on its absolute slot or opens a
      new one; an upvalue of the current closure is shared. */
  function CaptureOne(s: State, d: UpValueDecl): (r: Option<(State, Ref)>)
    requires |s.frames| > 0
    ensures r.Some? ==> r.value.0.stack == s.stack && r.value.0.frames == s.frames && r.value.0.globals == s.globals
    ensures r.Some? && d.Ref? ==> OpenAt(r.value.0.heap, r.value.1, d.slot + Current(s).bottom)
    ensures r.None? <==> d.RefUpValue? && d.index >= |Current(s).upvalues|
  {
    match d
    case Ref(slot, _) =>
      var abs := slot + Current(s).bottom;
      (match FindOpen(s.heap, s.openUpvalues, abs)
      case Some(u) => Some((s, u))
      case None =>
        var (s1, u) := Alloc(s, UpValueObj(false, OpenRef(abs)));
        Some((s1.(openUpvalues := s1.openUpvalues + [u]), u)))
    case RefUpValue(i, _) =>
      if i < |Current(s).upvalues| then Some((s, Current(s).upvalues[i])) else None
  }

  function Capture(s: State, decls: seq<UpValueDecl>): (r: Option<(State, seq<Ref>)>)
    requires |s.frames| > 0
    ensures r.Some? ==> r.value.0.stack == s.stack && r.value.0.frames == s.frames && r.value.0.globals == s.globals
    ensures r.Some? ==> |r.value.1| == |decls|
    decreases |decls|
  {
    if |decls| == 0 then Some((s, []))
    else
      match CaptureOne(s, decls[0])
      case None => None
      case Some((s1, u)) =>
        match Capture(s1, decls[1..])
        case None => None
        case Some((s2, us)) => Some((s2, [u] + us))
  }

  /** `Load(x)`: a chunk constant becomes a new closure over the captured
      upvalues; any other constant is pushed as it is. */
  function LoadOp(s: State, x: nat): (r: Outcome)
    requires |s.frames| > 0
    ensures x >= |Current(s).chunk.constants| ==> r.Panic?
    ensures x < |Current(s).chunk.constants| && !Current(s).chunk.constants[x].ChunkValue? ==>
      r.Running? && r.state.stack == s.stack + [Current(s).chunk.constants[x]] && r.state.heap == s.heap
  {
    var f := Current(s);
    if x >= |f.chunk.constants| then Panic
    else
      match f.chunk.constants[x]
      case ChunkValue(c) =>
        (match Capture(s, c.upvalues)
        case None => Panic
        case Some((s1, ups)) =>
          var (s2, p) := Alloc(s1, ClosureObj(false, Const(f.site, x), c, ups));
          Running(NextPc(s2.(stack := s2.stack + [Closure(p)]))))
      case v => Running(NextPc(s.(stack := s.stack + [v])))
  }

  /** The open-upvalue discipline: every object in the list is allocated
      and open, and no two of them point at the same stack slot. */
  ghost predicate OpenUnique(h: Objects, open: seq<Ref>) {
    (forall i :: 0 <= i < |open| ==> open[i] in h && h[open[i]].UpValueObj? && h[open[i]].upvalue.OpenRef?) &&
    (forall i, j :: 0 <= i < j < |open| ==> h[open[i]].upvalue.slot != h[open[j]].upvalue.slot)
  }

  /** Lemma: capturing one declaration keeps at most one open upvalue per
      stack slot, and allocation stays fresh. */
  lemma CaptureOneKeepsOpenUnique(s: State, d: UpValueDecl)
    requires |s.frames| > 0 && Fresh(s) && OpenUnique(s.heap, s.openUpvalues)
    requires CaptureOne(s, d).Some?
    ensures Fresh(CaptureOne(s, d).value.0)
    ensures OpenUnique(CaptureOne(s, d).value.0.heap, CaptureOne(s, d).value.0.openUpvalues)
  {
    if d.Ref? {
      var abs := d.slot + Current(s).bottom;
      if FindOpen(s.heap, s.openUpvalues, abs).None? {
        var s1 := CaptureOne(s, d).value.0;
        var u := s.next;
        assert s1.heap == s.heap[u := UpValueObj(false, OpenRef(abs))];
        assert s1.openUpvalues == s.openUpvalues + [u];
        forall i | 0 <= i < |s.openUpvalues|
          ensures s1.heap[s1.openUpvalues[i]] == s.heap[s.openUpvalues[i]]
        {
          assert s.openUpvalues[i] in s.heap;
        }
        forall i | 0 <= i < |s.openUpvalues|
          ensures s1.heap[s1.openUpvalues[i]].upvalue.slot != abs
        {
          assert s.openUpvalues[i] in s.openUpvalues;
        }
      }
    }
  }

  /** Lemma: loading a closure keeps at most one open upvalue per stack
      slot, so two closures capturing the same local share one object. */
  lemma {:induction false} CaptureKeepsOpenUnique(s: State, decls: seq<UpValueDecl>)
    requires |s.frames| > 0 && Fresh(s) && OpenUnique(s.heap, s.openUpvalues)
    requires Capture(s, decls).Some?
    ensures Fresh(Capture(s, decls).value.0)
    ensures OpenUnique(Capture(s, decls).value.0.heap, Capture(s, decls).value.0.openUpvalues)
    decreases |decls|
  {
    if |decls| > 0 {
      CaptureOneKeepsOpenUnique(s, decls[0]);
      CaptureKeepsOpenUnique(CaptureOne(s, decls[0]).value.0, decls[1..]);
    }
  }

  /** Lemma: a local captured twice, by two declarations of one closure or
      by two closures loaded in the same frame, yields the same object. */
  lemma CaptureSharesOpenUpvalue(s: State, slot: nat, n1: string, n2: string)
    requires |s.frames| > 0 && Fresh(s) && OpenUnique(s.heap, s.openUpvalues)
    ensures var r1 := CaptureOne(s, Ref(slot, n1)).value;
      CaptureOne(r1.0, Ref(slot, n2)).value.1 == r1.1
  {
    var r1 := CaptureOne(s, Ref(slot, n1)).value;
    CaptureOneKeepsOpenUnique(s, Ref(slot, n1));
    CaptureOneListsLocal(s, slot, n1);
    FindOpenUnique(r1.0.heap, r1.0.openUpvalues, r1.1, slot + Current(s).bottom);
  }

  /** Capturing a local leaves its upvalue object in the open list. */
  lemma CaptureOneListsLocal(s: State, slot: nat, n: string)
    requires |s.frames| > 0
    ensures CaptureOne(s, Ref(slot, n)).value.1 in CaptureOne(s, Ref(slot, n)).value.0.openUpvalues
  {
  }

  /** Under the discipline, the open upvalue on a slot is the one the
      search finds. */
  lemma FindOpenUnique(h: Objects, open: seq<Ref>, u: Ref, slot: nat)
    requires OpenUnique(h, open) && u in open && OpenAt(h, u, slot)
    ensures FindOpen(h, open, slot) == Some(u)
  {
    var found := FindOpen(h, open, slot);
    var i :| 0 <= i < |open| && open[i] == found.value;
    var j :| 0 <= j < |open| && open[j] == u;
    assert i == j;
  }

  // ---------------------------------------------------------------------
  // Returning.
  // ---------------------------------------------------------------------

  /** Whether the loop at the head of `Return` closes `u`: an open upvalue
      at or above the frame's bottom. */
  predicate Escapes(h: Objects, u: Ref, bottom: nat) {
    u in h && h[u].UpValueObj? && h[u].upvalue.OpenRef? && h[u].upvalue.slot >= bottom
  }

  /** That loop: each escaping upvalue object takes the current value of
      its slot and leaves the list, in order; the others stay. Reading a
      freed object or a slot past the top of the stack panics. */
  function CloseUpvalues(h: Objects, open: seq<Ref>, st: seq<Value>, bottom: nat): (r: Option<(Objects, seq<Ref>)>)
    ensures r.Some? ==> r.value.0.Keys == h.Keys
  {
    if |open| == 0 then Some((h, []))
    else
      var u := open[0];
      if u !in h || !h[u].UpValueObj? then None
      else if Escapes(h, u, bottom) then
        if h[u].upvalue.slot >= |st| then None
        else CloseUpvalues(h[u := UpValueObj(h[u].marked, Closed(st[h[u].upvalue.slot]))], open[1..], st, bottom)
      else
        match CloseUpvalues(h, open[1..], st, bottom)
        case None => None
        case Some((h', rest)) => Some((h', [u] + rest))
  }

  /** Lemma: with the open-upvalue discipline and every slot on the
      stack, closing succeeds; the remaining list is exactly the objects
      below `bottom`, in order; each escaping object now holds the value of
      its slot; and no other object changes. */
  lemma {:induction false} CloseUpvaluesEffect(h: Objects, open: seq<Ref>, st: seq<Value>, bottom: nat)
    requires OpenUnique(h, open)
    requires forall i :: 0 <= i < |open| ==> h[open[i]].upvalue.slot < |st|
    ensures CloseUpvalues(h, open, st, bottom).Some?
    ensures var (h', open') := CloseUpvalues(h, open, st, bottom).value;
      open' == Kept(h, open, bottom) &&
      (forall u :: u in open && Escapes(h, u, bottom) ==> h'[u] == UpValueObj(h[u].marked, Closed(st[h[u].upvalue.slot]))) &&
      (forall u :: u in h && u !in open ==> h'[u] == h[u]) &&
      (forall u :: u in open && !Escapes(h, u, bottom) ==> h'[u] == h[u])
    decreases |open|
  {
    if |open| > 0 {
      var u := open[0];
      var tail := open[1..];
      OpenUniqueTail(h, open);
      if Escapes(h, u, bottom) {
        var h1 := h[u := UpValueObj(h[u].marked, Closed(st[h[u].upvalue.slot]))];
        OpenUniqueFrame(h, h1, tail);
        CloseUpvaluesEffect(h1, tail, st, bottom);
        KeptSkipsOthers(h, h1, tail, bottom);
      } else {
        CloseUpvaluesEffect(h, tail, st, bottom);
      }
    }
  }

  /** The tail of a list of distinct open upvalues is one too, without
      the head. */
  lemma OpenUniqueTail(h: Objects, open: seq<Ref>)
    requires OpenUnique(h, open) && |open| > 0
    ensures OpenUnique(h, open[1..])
    ensures forall i :: 0 <= i < |open| - 1 ==> open[1..][i] == open[i + 1]
    ensures forall v :: v in open[1..] ==> v != open[0]
  {
    var tail := open[1..];
    forall v | v in tail ensures v != open[0] {
      var i :| 0 <= i < |tail| && tail[i] == v;
      assert h[open[0]].upvalue.slot != h[open[i + 1]].upvalue.slot;
    }
  }

  /** Objects the list does not hold may change freely. */
  lemma OpenUniqueFrame(h: Objects, h1: Objects, open: seq<Ref>)
    requires OpenUnique(h, open)
    requires forall u :: u in open ==> u in h1 && h1[u] == h[u]
    ensures OpenUnique(h1, open)
    ensures forall i :: 0 <= i < |open| ==> h1[open[i]] == h[open[i]]
  {
    forall i | 0 <= i < |open| ensures h1[open[i]] == h[open[i]] {
      assert open[i] in open;
    }
  }

  /** The open upvalues `Return` keeps. */
  function Kept(h: Objects, open: seq<Ref>, bottom: nat): (r: seq<Ref>)
    ensures forall u :: u in r <==> u in open && !Escapes(h, u, bottom)
  {
    if |open| == 0 then []
    else if Escapes(h, open[0], bottom) then Kept(h, open[1..], bottom)
    else [open[0]] + Kept(h, open[1..], bottom)
  }

  lemma {:induction false} KeptSkipsOthers(h: Objects, h1: Objects, open: seq<Ref>, bottom: nat)
    requires forall u :: u in open ==> u in h && u in h1 && h1[u] == h[u]
    ensures Kept(h1, open, bottom) == Kept(h, open, bottom)
    decreases |open|
  {
    if |open| > 0 {
      KeptSkipsOthers(h, h1, open[1..], bottom);
    }
  }

  /** The stack after unwinding a frame at `bottom` whose function has
      `numLocals` locals: if only the locals are there, they and the
      closure below them give way to `Nil`; otherwise the top value is the
      result and replaces everything from the closure up. */
  function Unwind(st: seq<Value>, bottom: nat, numLocals: nat): (r: Option<seq<Value>>)
    ensures r.None? <==> bottom + numLocals != |st| && |st| == 0
  {
    if bottom + numLocals == |st| then Some(DropTop(st[..bottom]) + [Nil])
    else if |st| == 0 then None
    else
      var rest := st[..|st| - 1];
      Some(DropTop(rest[..if bottom < |rest| then bottom else |rest|]) + [st[|st| - 1]])
  }

  /** Lemma: for a frame above its closure (bottom at least 1) with the
      stack at least as high as the frame, unwinding leaves the stack at
      height `bottom` with the result (or `Nil`) on top and everything
      below the closure untouched. */
  lemma UnwindHeight(st: seq<Value>, bottom: nat, numLocals: nat)
    requires 1 <= bottom <= |st| && (bottom < |st| || numLocals == 0)
    ensures Unwind(st, bottom, numLocals).Some?
    ensures var r := Unwind(st, bottom, numLocals).value;
      |r| == bottom && r[..bottom - 1] == st[..bottom - 1] &&
      r[bottom - 1] == (if bottom + numLocals == |st| then Nil else st[|st| - 1])
  {
  }

  /** `Return`: close the escaping upvalues, pop the frame, unwind the
      stack; leaving the last frame ends the run with `Ok`. */
  function ReturnOp(s: State): (r: Outcome)
    requires |s.frames| > 0
    ensures r.Finished? || r.Running? ==> |r.state.frames| == |s.frames| - 1 && r.state.frames == s.frames[..|s.frames| - 1]
    ensures r.Finished? <==> |s.frames| == 1 && !r.Panic?
    ensures r.Running? || r.Finished? ==> r.state.heap.Keys == s.heap.Keys
  {
    var f := Current(s);
    match CloseUpvalues(s.heap, s.openUpvalues, s.stack, f.bottom)
    case None => Panic
    case Some((h, open)) =>
      match Unwind(s.stack, f.bottom, f.chunk.numLocals)
      case None => Panic
      case Some(st) =>
        var s1 := s.(stack := st, frames := s.frames[..|s.frames| - 1], heap := h, openUpvalues := open);
        if |s1.frames| == 0 then Finished(s1) else Running(s1)
  }

  /** The conditions under which `Return` cannot panic: the open-upvalue
      discipline, every open slot on the stack, and a frame above its
      closure whose stack reaches the bottom (and goes past it unless the
      function has no locals). */
  ghost predicate ReturnReady(s: State)
    requires |s.frames| > 0
  {
    OpenUnique(s.heap, s.openUpvalues) &&
    (forall i :: 0 <= i < |s.openUpvalues| ==> s.heap[s.openUpvalues[i]].upvalue.slot < |s.stack|) &&
    1 <= Current(s).bottom <= |s.stack| &&
    (Current(s).bottom < |s.stack| || Current(s).chunk.numLocals == 0)
  }

  /** Lemma: what `Return` does: every open upvalue at or above the frame
      bottom is closed over the current value of its slot and dropped from
      the list, the others remain, and the stack is unwound to the frame
      bottom with the result on top. */
  lemma ReturnClosesAndUnwinds(s: State)
    requires |s.frames| > 0 && ReturnReady(s)
    ensures ReturnOp(s).Running? || ReturnOp(s).Finished?
    ensures var t := ReturnOp(s).state; var b := Current(s).bottom;
      t.openUpvalues == Kept(s.heap, s.openUpvalues, b) &&
      (forall u :: u in s.openUpvalues && Escapes(s.heap, u, b) ==>
         t.heap[u] == UpValueObj(s.heap[u].marked, Closed(s.stack[s.heap[u].upvalue.slot]))) &&
      (forall u :: u in s.heap && !(u in s.openUpvalues && Escapes(s.heap, u, b)) ==> t.heap[u] == s.heap[u])
    ensures var t := ReturnOp(s).state; var b := Current(s).bottom;
      |t.stack| == b && t.stack[..b - 1] == s.stack[..b - 1] &&
      t.stack[b - 1] == (if b + Current(s).chunk.numLocals == |s.stack| then Nil else s.stack[|s.stack| - 1])
  {
    CloseUpvaluesEffect(s.heap, s.openUpvalues, s.stack, Current(s).bottom);
    UnwindHeight(s.stack, Current(s).bottom, Current(s).chunk.numLocals);
  }

  /** Lemma: after `Return` no open upvalue points at or above the bottom
      of the frame that returned, and the discipline still holds. */
  lemma ReturnKeepsOpenUnique(s: State)
    requires |s.frames| > 0 && ReturnReady(s)
    ensures ReturnOp(s).Running? || ReturnOp(s).Finished?
    ensures OpenUnique(ReturnOp(s).state.heap, ReturnOp(s).state.openUpvalues)
    ensures forall u :: u in ReturnOp(s).state.openUpvalues ==> ReturnOp(s).state.heap[u].upvalue.slot < Current(s).bottom
  {
    ReturnClosesAndUnwinds(s);
    var t := ReturnOp(s).state;
    KeptOpenUnique(s.heap, t.heap, s.openUpvalues, Current(s).bottom);
  }

  /** The kept upvalues, unchanged in the new heap, still obey the
      discipline, and all lie below `bottom`. */
  lemma KeptOpenUnique(h: Objects, h': Objects, open: seq<Ref>, bottom: nat)
    requires OpenUnique(h, open)
    requires forall u :: u in open && !Escapes(h, u, bottom) ==> u in h' && h'[u] == h[u]
    ensures OpenUnique(h', Kept(h, open, bottom))
    ensures forall u :: u in Kept(h, open, bottom) ==> h'[u].upvalue.slot < bottom
  {
    var k := Kept(h, open, bottom);
    forall i, j | 0 <= i < j < |k|
      ensures h'[k[i]].upvalue.slot != h'[k[j]].upvalue.slot
    {
      var i', j' := KeptIndex(h, open, bottom, i, j);
    }
    forall i | 0 <= i < |k|
      ensures k[i] in h' && h'[k[i]].UpValueObj? && h'[k[i]].upvalue.OpenRef?
    {
      assert k[i] in k;
      var p :| 0 <= p < |open| && open[p] == k[i];
    }
  }

  lemma {:induction false} KeptIndex(h: Objects, open: seq<Ref>, bottom: nat, i: nat, j: nat) returns (i': nat, j': nat)
    requires i < j < |Kept(h, open, bottom)|
    ensures i' < j' < |open| && open[i'] == Kept(h, open, bottom)[i] && open[j'] == Kept(h, open, bottom)[j]
    decreases |open|
  {
    var k := Kept(h, open, bottom);
    if Escapes(h, open[0], bottom) {
      var a, b := KeptIndex(h, open[1..], bottom, i, j);
      i', j' := a + 1, b + 1;
    } else if i == 0 {
      assert k[j] == Kept(h, open[1..], bottom)[j - 1];
      var x := KeptPosition(h, open[1..], bottom, j - 1);
      i', j' := 0, x + 1;
    } else {
      var a, b := KeptIndex(h, open[1..], bottom, i - 1, j - 1);
      i', j' := a + 1, b + 1;
    }
  }

  lemma {:induction false} KeptPosition(h: Objects, open: seq<Ref>, bottom: nat, i: nat) returns (i': nat)
    requires i < |Kept(h, open, bottom)|
    ensures i' < |open| && open[i'] == Kept(h, open, bottom)[i]
    decreases |open|
  {
    if Escapes(h, open[0], bottom) {
      var a := KeptPosition(h, open[1..], bottom, i);
      i' := a + 1;
    } else if i == 0 {
      i' := 0;
    } else {
      var a := KeptPosition(h, open[1..], bottom, i - 1);
      i' := a + 1;
    }
  }

  /** `Except`: like `Return`, but the result becomes an `Error` value: a
      fresh dictionary, empty when the function left no value and holding
      `"info"` mapped to the value otherwise. Outside `TryCall`, or from the
      last frame, the run ends with that dictionary as `Exception`. */
  function ExceptOp(s: State): (r: Outcome)
    requires |s.frames| > 0
    ensures !r.Finished?
    ensures r.Failed? <==> !r.Panic? && (!s.protected || |s.frames| == 1)
    ensures r.Failed? ==>
      if Current(s).bottom + Current(s).chunk.numLocals == |s.stack| then r.error == Exception([])
      else |s.stack| > 0 && r.error == Exception([("info", s.stack[|s.stack| - 1])])
    ensures r.Running? ==> r.state.frames == s.frames[..|s.frames| - 1] && |r.state.stack| > 0
    ensures r.Running? ==>
      var e := r.state.stack[|r.state.stack| - 1];
      e.Error? && e.err in r.state.heap && r.state.heap[e.err].DictObj? &&
      if Current(s).bottom + Current(s).chunk.numLocals == |s.stack| then r.state.heap[e.err].entries == []
      else |s.stack| > 0 && r.state.heap[e.err].entries == [("info", s.stack[|s.stack| - 1])]
  {
    var f := Current(s);
    match CloseUpvalues(s.heap, s.openUpvalues, s.stack, f.bottom)
    case None => Panic
    case Some((h, open)) =>
      if !(f.bottom + f.chunk.numLocals == |s.stack|) && |s.stack| == 0 then Panic
      else
        var entries: Entries :=
          if f.bottom + f.chunk.numLocals == |s.stack| then [] else [("info", s.stack[|s.stack| - 1])];
        var st :=
          if f.bottom + f.chunk.numLocals == |s.stack| then DropTop(s.stack[..f.bottom])
          else
            var rest := s.stack[..|s.stack| - 1];
            DropTop(rest[..if f.bottom < |rest| then f.bottom else |rest|]);
        var s1 := s.(stack := st, frames := s.frames[..|s.frames| - 1], heap := h, openUpvalues := open);
        var (s2, d) := Alloc(s1, DictObj(false, entries));
        if !s.protected || |s2.frames| == 0 then Failed(Exception(entries))
        else Running(s2.(stack := s2.stack + [Error(d)]))
  }

  // ---------------------------------------------------------------------
  // The loop.
  // ---------------------------------------------------------------------

  /** One iteration of `Vm::run`: fetch the current instruction (a pc
      outside the code panics) and execute it. `Not` has no case in the
      loop and ends it with an "unknown instruction" error. */
  function Step(s: State, native: Native): (r: Outcome)
    ensures |s.frames| == 0 ==> r.Panic?
  {
    if |s.frames| == 0 then Panic
    else
      var f := Current(s);
      if !(0 <= f.pc < |f.chunk.bytecodes|) then Panic
      else
        match f.chunk.bytecodes[f.pc]
          case Add => NumberOp(s, Add)
          case Sub => NumberOp(s, Sub)
          case Mul => NumberOp(s, Mul)
          case Div => NumberOp(s, Div)
          case Mod => NumberOp(s, Mod)
          case Gt => NumberOp(s, Gt)
          case Lt => NumberOp(s, Lt)
          case Ge => NumberOp(s, Ge)
          case Le => NumberOp(s, Le)
          case Negate => NegateOp(s)
          case Eq => EqualityOp(s, false)
          case Ne => EqualityOp(s, true)
          case Or => LogicOp(s, false)
          case And => LogicOp(s, true)
          case PushNil => Running(NextPc(s.(stack := s.stack + [Nil])))
          case LoadTrue => Running(NextPc(s.(stack := s.stack + [Bool(true)])))
          case LoadFalse => Running(NextPc(s.(stack := s.stack + [Bool(false)])))
          case Pop => Running(NextPc(s.(stack := DropTop(s.stack))))
          case Load(x) => LoadOp(s, x)
          case GetGlobal(x) => GetGlobalOp(s, x)
          case GetLocal(x) => GetLocalOp(s, x)
          case SetLocal(x) => SetLocalOp(s, x)
          case GetUpValue(x) => GetUpvalueOp(s, x)
          case SetUpValue(x) => SetUpvalueOp(s, x)
          case InitMatrix(rows, cols) => InitMatrixOp(s, rows, cols)
          case InitArray(n) => InitArrayOp(s, n)
          case InitDict(n) => InitDictOp(s, n)
          case GetCollection => GetCollectionOp(s)
          case SetCollection => SetCollectionOp(s)
          case Jump(x) => JumpOp(s, x)
          case JumpIfNot(x) => JumpIfNotOp(s, x)
          case Call(x) => CallOp(s, x, false, native)
          case TryCall(x) => CallOp(s, x, true, native)
          case Return => ReturnOp(s)
          case Except => ExceptOp(s)
          case Not => Failed(GeneralError)
  }

  /** `fuel` iterations of a loop whose body is `step`: an outcome other
      than `Running` leaves the loop, and running out of fuel leaves the
      state reached. */
  function Loop(step: State -> Outcome, s: State, fuel: nat): (r: Outcome)
    ensures fuel == 0 ==> r == Running(s)
    decreases fuel
  {
    if fuel == 0 then Running(s)
    else
      match step(s)
      case Running(s1) => Loop(step, s1, fuel - 1)
      case r => r
  }

  /** The body of `Vm::run`, for a given native table. */
  function StepWith(native: Native): State -> Outcome {
    s => Step(s, native)
  }

  /** `Vm::run`, bounded by `fuel` iterations of `Step`. */
  function Run(s: State, native: Native, fuel: nat): (r: Outcome)
    ensures fuel == 0 ==> r == Running(s)
    ensures fuel > 0 && |s.frames| == 0 ==> r == Panic
  {
    Loop(StepWith(native), s, fuel)
  }

  /** Running `f` iterations and then `g` more is running `f + g`
      iterations, whatever the loop body. */
  lemma {:induction false} LoopCompose(step: State -> Outcome, s: State, f: nat, g: nat)
    ensures var o := Loop(step, s, f);
      Loop(step, s, f + g) == if o.Running? then Loop(step, o.state, g) else o
    decreases f
  {
    if f > 0 {
      match step(s)
      case Running(s1) =>
        LoopCompose(step, s1, f - 1, g);
      case _ =>
    }
  }

  /** Lemma: running `f` iterations of `Vm::run` and then `g` more is
      running `f + g` iterations: the loop keeps no state besides the
      machine state, and a run that has left the loop stays left. */
  lemma RunCompose(s: State, native: Native, f: nat, g: nat)
    ensures var o := Run(s, native, f);
      Run(s, native, f + g) == if o.Running? then Run(o.state, native, g) else o
  {
    LoopCompose(StepWith(native), s, f, g);
  }

  /** Lemma: an outcome other than `Running` is final: once the loop has
      finished, failed or panicked within `f` iterations, more fuel gives
      the same outcome. */
  lemma RunSettles(s: State, native: Native, f: nat, g: nat)
    requires f <= g && !Run(s, native, f).Running?
    ensures Run(s, native, g) == Run(s, native, f)
  {
    RunCompose(s, native, f, g - f);
  }

  /** Lemma: `Jump(0)` jumps to itself: the step gives back the state it
      was taken in, so a run that reaches it stays there for good. */
  lemma {:induction false} JumpZeroStalls(s: State, native: Native, fuel: nat)
    requires |s.frames| > 0 && 0 <= Current(s).pc < |Current(s).chunk.bytecodes|
    requires Current(s).chunk.bytecodes[Current(s).pc] == Jump(0)
    ensures Step(s, native) == Running(s)
    ensures Run(s, native, fuel) == Running(s)
    decreases fuel
  {
    assert s.frames[..|s.frames| - 1] + [Current(s)] == s.frames;
    if fuel > 0 {
      JumpZeroStalls(s, native, fuel - 1);
    }
  }

  /** Lemma: `Jump(1)` falls through: the next instruction runs, with the
      stack and the frames below untouched. */
  lemma JumpOneFallsThrough(s: State, native: Native)
    requires |s.frames| > 0 && 0 <= Current(s).pc < |Current(s).chunk.bytecodes|
    requires Current(s).chunk.bytecodes[Current(s).pc] == Jump(1)
    ensures Step(s, native).Running?
    ensures Step(s, native).state.stack == s.stack
    ensures Step(s, native).state.frames == s.frames[..|s.frames| - 1] + [Current(s).(pc := Current(s).pc + 1)]
  {
  }
}
