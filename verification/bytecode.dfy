/**
 * Runtime values, instructions and compiled chunks (`src/lib.rs`).
 *
 * Heap pointers (`*mut Array`, `*mut Dict`, ...) become `Ref`s, addresses
 * into the heap map of module `Heap`; `f64` becomes `real` (no NaN, no
 * rounding). The constructors `Fiber` and `OpaqueData` belong to the newer
 * runtime interface used by the fiber and native-vector code and are
 * carried here so that one value type serves every module.
 */
module Bytecode {

  /** A heap address. */
  type Ref = nat

  datatype Value =
    | Nil
    | Bool(b: bool)
    | Number(n: real)
    | Vec2(x: real, y: real)
    | Vec3(x3: real, y3: real, z3: real)
    | String(s: string)
    | Array(arr: Ref)
    | Dictionary(dict: Ref)
    | Error(err: Ref)
    | Matrix(mat: Ref)
    | Closure(closure: Ref)
    | NativeFunction(native: nat)
    | ChunkValue(chunk: Chunk)
    | Fiber(fiber: nat)
    | OpaqueData(data: nat)

  /** How a compiled function reaches a variable of an enclosing one: a
      local slot of the directly enclosing function, or one of that
      function's own upvalues. */
  datatype UpValueDecl =
    | Ref(slot: nat, name: string)
    | RefUpValue(index: nat, name: string)

  datatype Instr =
    | Load(constant: nat)
    | GetGlobal(global: nat)
    | GetLocal(local: nat)
    | SetLocal(setLocal: nat)
    | GetUpValue(upvalue: nat)
    | SetUpValue(setUpvalue: nat)
    | InitMatrix(rows: nat, cols: nat)
    | InitArray(size: nat)
    | InitDict(pairs: nat)
    | PushNil
    | GetCollection
    | SetCollection
    | Add | Sub | Mul | Div | Mod | Negate
    | Not | And | Or
    | Gt | Lt | Ge | Le | Eq | Ne
    | LoadTrue | LoadFalse
    | Pop
    | Call(argc: nat)
    | TryCall(tryArgc: nat)
    | JumpIfNot(offset: int)
    | Jump(jump: int)
    | Return
    | Except

  /** A compiled function: its code with one line number per instruction,
      its constant pool, the upvalues it captures, its arity, the number of
      local slots (parameters included) and whether it takes a variable
      number of arguments. */
  datatype Chunk = Chunk(
    bytecodes: seq<Instr>,
    lines: seq<nat>,
    constants: seq<Value>,
    upvalues: seq<UpValueDecl>,
    parameterNum: nat,
    numLocals: nat,
    isVa: bool)

  /** `f64 as usize` for the values that reach it: negative numbers give
      0 and the fraction is cut off (saturation at the top is not modelled). */
  function AsIndex(x: real): (i: nat)
    ensures x >= 0.0 ==> i as real <= x < i as real + 1.0
    ensures x < 0.0 ==> i == 0
  {
    if x < 0.0 then 0 else x.Floor
  }

  /** `n` copies of `Nil` (the locals `reserve_local` adds). */
  function Nils(n: nat): (r: seq<Value>)
    ensures |r| == n && forall i :: 0 <= i < n ==> r[i] == Nil
  {
    seq(n, _ => Nil)
  }

  /** `Chunk::default()`. */
  function EmptyChunk(): (c: Chunk)
    ensures |c.bytecodes| == |c.lines| == |c.constants| == |c.upvalues| == 0
    ensures c.parameterNum == c.numLocals == 0
  {
    Chunk([], [], [], [], 0, 0, false)
  }

  /** `Chunk`'s hand-written `PartialEq`: never equal, not even to itself. */
  predicate ChunkEq(c: Chunk, d: Chunk) {
    false
  }

  /** The derived `PartialEq` of `Value`, variant by variant: numbers and
      strings by content, heap values by address, chunks through
      `ChunkEq`, different variants never. */
  predicate ValueEq(a: Value, b: Value) {
    match a
    case Nil => b.Nil?
    case Bool(p) => b.Bool? && b.b == p
    case Number(x) => b.Number? && b.n == x
    case Vec2(x, y) => b.Vec2? && b.x == x && b.y == y
    case Vec3(x, y, z) => b.Vec3? && b.x3 == x && b.y3 == y && b.z3 == z
    case String(s) => b.String? && b.s == s
    case Array(r) => b.Array? && b.arr == r
    case Dictionary(r) => b.Dictionary? && b.dict == r
    case Error(r) => b.Error? && b.err == r
    case Matrix(r) => b.Matrix? && b.mat == r
    case Closure(r) => b.Closure? && b.closure == r
    case NativeFunction(f) => b.NativeFunction? && b.native == f
    case ChunkValue(c) => b.ChunkValue? && ChunkEq(c, b.chunk)
    case Fiber(f) => b.Fiber? && b.fiber == f
    case OpaqueData(p) => b.OpaqueData? && b.data == p
  }

  /** Lemma: value equality is structural identity except that a chunk
      equals nothing; in particular it is symmetric, and reflexive exactly
      on the values that are not chunks. */
  lemma ValueEqIsIdentityExceptChunks(a: Value, b: Value)
    ensures ValueEq(a, b) <==> a == b && !a.ChunkValue?
    ensures ValueEq(a, b) <==> ValueEq(b, a)
    ensures ValueEq(a, a) <==> !a.ChunkValue?
  {
  }
}
