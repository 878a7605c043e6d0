/**
 * The Pratt parser and bytecode emitter of `src/compiler/parser.rs`.
 *
 * The parser state keeps the token list with one (row, column) pair per
 * token and the global symbols (`Input`, fixed while parsing), the index
 * of the next token, and one entry per open function scope: the chunk
 * being emitted, the local symbol table and the "captured" flag of every
 * local slot. `depth` is the index of the innermost scope.
 *
 * Every parse routine returns the new state or how it failed: an error
 * message (here its kind), a panic (an index out of range, as when an
 * error message is built at the end of the input), or `NoFuel`. The fuel
 * bounds the recursion and loops of the Rust code, which are not
 * otherwise bounded (a block statement, for one, recurses forever, as
 * `BlockRecursesForever` shows); running out of it is the model's own
 * outcome.
 *
 * The parser is modelled as written: `consume` only checks the next
 * token and never moves past it, and a `nil` operand is not moved past
 * either. Most statements therefore fail at their second expected token
 * (`ConsumeThenExpectFails`).
 */
module Parser {
  import opened Wrappers
  import opened Tokens
  import B = Bytecode

  // ---------------------------------------------------------------------
  // Precedence.
  // ---------------------------------------------------------------------

  /** `PrattPrecedence`, weakest first; `NoLevel` (the source's `None`)
      marks a token that is no infix operator. */
  datatype Prec = Lowest | Or | And | Equal | Cmp | Term | Factor | Unary | Call | Primary | NoLevel

  /** The derived `PartialOrd`: the position in the declaration. */
  function Rank(p: Prec): nat {
    match p
    case Lowest => 0
    case Or => 1
    case And => 2
    case Equal => 3
    case Cmp => 4
    case Term => 5
    case Factor => 6
    case Unary => 7
    case Call => 8
    case Primary => 9
    case NoLevel => 10
  }

  /** The levels in increasing order, listed independently of `Rank`. */
  const Levels: seq<Prec> := [Prec.Lowest, Prec.Or, Prec.And, Prec.Equal, Prec.Cmp, Prec.Term, Prec.Factor, Prec.Unary, Prec.Call, Prec.Primary, Prec.NoLevel]

  /** Lemma: the comparison of levels is a strict total order that puts
      them in the order of `Levels`. */
  lemma PrecedenceIsTotalOrder(p: Prec, q: Prec)
    ensures Rank(p) == Rank(q) <==> p == q
    ensures Rank(p) < Rank(q) || Rank(p) == Rank(q) || Rank(q) < Rank(p)
    ensures forall i, j :: 0 <= i < j < |Levels| ==> Rank(Levels[i]) < Rank(Levels[j])
    ensures p in Levels
  {
  }

  /** `get_precedence`. */
  function GetPrecedence(t: Token): Prec {
    match t
    case Number(_) => Prec.Primary
    case String(_) => Prec.Primary
    case Symbol(_) => Prec.Primary
    case True => Prec.Primary
    case False => Prec.Primary
    case Nil => Prec.Primary
    case Dict => Prec.Primary
    case Stick => Prec.Primary
    case Array => Prec.Primary
    case Dot => Prec.Call
    case LParen => Prec.Call
    case LBracket => Prec.Call
    case Not => Prec.Unary
    case Sub => Prec.Term
    case Add => Prec.Term
    case And => Prec.And
    case Or => Prec.Or
    case LSlash => Prec.Factor
    case Percent => Prec.Factor
    case Star => Prec.Factor
    case EEqual => Prec.Equal
    case NotEqual => Prec.Equal
    case Le => Prec.Cmp
    case Ge => Prec.Cmp
    case LArrow => Prec.Cmp
    case RArrow => Prec.Cmp
    case _ => Prec.NoLevel
  }

  /** The instruction the infix loop emits after an operator's right
      operand; tokens with a precedence but no arm emit nothing. */
  function BinaryInstr(t: Token): Option<B.Instr> {
    match t
    case Add => Some(B.Add)
    case Sub => Some(B.Sub)
    case LSlash => Some(B.Div)
    case Percent => Some(B.Mod)
    case Star => Some(B.Mul)
    case LArrow => Some(B.Lt)
    case RArrow => Some(B.Gt)
    case Le => Some(B.Le)
    case Ge => Some(B.Ge)
    case EEqual => Some(B.Eq)
    case NotEqual => Some(B.Ne)
    case And => Some(B.And)
    case Or => Some(B.Or)
    case _ => None
  }

  /** Lemma: the multiplicative operators are exactly the tokens at the
      `Factor` level, which binds tighter than `Term`. */
  lemma FactorLevel(t: Token)
    ensures t == Star || t == LSlash || t == Percent <==> GetPrecedence(t) == Prec.Factor
    ensures Rank(Prec.Term) < Rank(Prec.Factor)
  {
  }

  /** Lemma: the additive operators are exactly the tokens at the `Term`
      level. */
  lemma TermLevel(t: Token)
    ensures t == Add || t == Sub <==> GetPrecedence(t) == Prec.Term
  {
  }

  /** Lemma: every operator with an instruction sits strictly between
      `Lowest` and `Unary`, so any of them can continue an expression and
      none binds as tightly as a prefix operator. */
  lemma BinaryOperatorLevels(t: Token)
    ensures BinaryInstr(t).Some? ==> Rank(Prec.Lowest) < Rank(GetPrecedence(t)) < Rank(Prec.Unary)
  {
  }

  /** Lemma: a token with a level but no instruction is an operand, a
      call, index or member suffix, or `!`. */
  lemma NonBinaryLevels(t: Token)
    ensures BinaryInstr(t).None? && GetPrecedence(t) != Prec.NoLevel ==>
      GetPrecedence(t) == Prec.Primary || GetPrecedence(t) == Prec.Call || t == Not
  {
  }

  // ---------------------------------------------------------------------
  // Parser state.
  // ---------------------------------------------------------------------

  /** What the parser reads and never changes: the tokens, their
      (row, column) pairs and the global symbols. */
  datatype Input = Input(tokens: seq<Token>, cood: seq<(nat, nat)>, globals: map<string, nat>)

  /** `ParserCtx`. */
  datatype Ctx = Ctx(
    input: Input,
    ptr: nat,
    chunks: seq<B.Chunk>,
    symbols: seq<map<string, nat>>,
    captured: seq<seq<bool>>,
    depth: nat)

  /** `VarLoc`. */
  datatype VarLoc = Local(slot: nat) | UpValue(up: nat) | UpLocal(outer: nat) | Global(global: nat) | NotFound

  /** The error messages, by kind. */
  datatype ErrKind =
    | UnexpectedToken | UnexpectedEof | SymbolNotFound | Redeclaration
    | IllegalArgumentList | InvalidRvalExpr | IllegalDict
    | InvalidFunctionDecl | ExpectRParen | InvalidDecl | IncompleteProgram

  /** What a parse routine gives back: the new state with a count (of
      arguments, parameters or entries, where the routine returns one),
      an error, a panic, or running out of fuel. */
  datatype Res = Ok(c: Ctx, n: nat) | Err(kind: ErrKind) | Panic | NoFuel {
    predicate IsFailure() {
      !Ok?
    }

    function PropagateFailure(): Res
      requires !Ok?
    {
      this
    }

    function Extract(): Res
      requires Ok?
    {
      this
    }
  }

  /** One scope's chunk, symbol table and captured flags agree: as many
      lines as instructions, one flag per local slot, and every symbol
      names a slot. */
  predicate FrameOk(ch: B.Chunk, sym: map<string, nat>, cap: seq<bool>) {
    && |ch.bytecodes| == |ch.lines|
    && ch.numLocals == |cap|
    && (forall n :: n in sym ==> sym[n] < |cap|)
  }

  /** The parser invariant: the three scope stacks have one entry per
      open scope, `depth` is the last of them, every scope is consistent,
      and there is one position per token. */
  predicate Valid(c: Ctx) {
    && |c.chunks| > 0
    && c.depth == |c.chunks| - 1
    && |c.symbols| == |c.chunks|
    && |c.captured| == |c.chunks|
    && |c.input.cood| == |c.input.tokens|
    && (forall d :: 0 <= d < |c.chunks| ==> FrameOk(c.chunks[d], c.symbols[d], c.captured[d]))
  }

  /** `ParserCtx::new`. */
  function NewCtx(input: Input): (c: Ctx)
    requires |input.cood| == |input.tokens|
    ensures Valid(c) && c.depth == 0 && c.ptr == 0 && c.chunks == [B.EmptyChunk()]
  {
    Ctx(input, 0, [B.EmptyChunk()], [map[]], [[]], 0)
  }

  /** The chunk of the innermost scope. */
  function Top(c: Ctx): B.Chunk
    requires Valid(c)
  {
    c.chunks[c.depth]
  }

  /** Its code. */
  function Code(c: Ctx): seq<B.Instr>
    requires Valid(c)
  {
    Top(c).bytecodes
  }

  /** Replace the innermost chunk by one that keeps its scope
      consistent. */
  function SetTop(c: Ctx, ch: B.Chunk): (r: Ctx)
    requires Valid(c) && FrameOk(ch, c.symbols[c.depth], c.captured[c.depth])
    ensures Valid(r) && Top(r) == ch
    ensures r == c.(chunks := c.chunks[c.depth := ch])
  {
    c.(chunks := c.chunks[c.depth := ch])
  }

  /** The parse routines keep the input and the scope depth. */
  predicate Same(c: Ctx, d: Ctx) {
    d.input == c.input && d.depth == c.depth
  }

  // ---------------------------------------------------------------------
  // Token access.
  // ---------------------------------------------------------------------

  /** `peek`. */
  function Peek(c: Ctx): (r: Option<Token>)
    ensures r.Some? <==> c.ptr < |c.input.tokens|
    ensures r.Some? ==> r.value == c.input.tokens[c.ptr]
  {
    if c.ptr >= |c.input.tokens| then None else Some(c.input.tokens[c.ptr])
  }

  /** `advance`. */
  function Advance(c: Ctx): (r: Ctx)
    ensures r.ptr == c.ptr + 1 && r == c.(ptr := c.ptr + 1)
    ensures Valid(c) ==> Valid(r) && Same(c, r)
  {
    c.(ptr := c.ptr + 1)
  }

  /** An error whose message quotes the position of the next token
      (`parser_err_str` and `consume`'s messages): past the last position
      the index is out of range. */
  function ErrAt(c: Ctx, k: ErrKind): (r: Res)
    ensures r == Err(k) || r == Panic
    ensures r == Err(k) <==> c.ptr < |c.input.cood|
  {
    if c.ptr < |c.input.cood| then Err(k) else Panic
  }

  /** The failure of `peek_not_eof` at the end of the input: the
      message indexes one past the last position. */
  function EofErr(c: Ctx): (r: Res)
    ensures c.ptr >= |c.input.cood| ==> r == Panic
  {
    ErrAt(c, UnexpectedEof)
  }

  /** How `consume` treats the token it has checked. The source's
      `consume` leaves it in place (`AsWritten`); every caller is written
      as if it moved past it (`Advancing`). The parse routines take this
      as a parameter, so that both readings are stated side by side. */
  datatype Consuming = AsWritten | Advancing

  /** `consume`: succeed if the next token is the expected one. */
  function Consume(m: Consuming, c: Ctx, t: Token): (r: Res)
    ensures r.Ok? <==> Peek(c) == Some(t)
    ensures !r.Ok? ==> r == ErrAt(c, UnexpectedToken)
    ensures r.Ok? ==> r.n == 0 && r.c == if m == AsWritten then c else Advance(c)
    ensures Valid(c) ==> Keeps(c, r)
  {
    match Peek(c)
    case Some(look) =>
      if look != t then ErrAt(c, UnexpectedToken)
      else if m == AsWritten then Ok(c, 0)
      else Ok(Advance(c), 0)
    case None => ErrAt(c, UnexpectedToken)
  }

  /** Lemma: `consume` succeeds exactly when the next token is the one
      expected; as written it then leaves the state exactly as it was,
      the pointer included. Otherwise it reports an unexpected token, or
      panics past the last position. */
  lemma ConsumeNeverAdvances(m: Consuming, c: Ctx, t: Token)
    ensures Consume(m, c, t).Ok? <==> Peek(c) == Some(t)
    ensures Consume(m, c, t).Ok? ==> Consume(m, c, t).c == (if m == AsWritten then c else Advance(c))
    ensures !Consume(m, c, t).Ok? ==> Consume(m, c, t) == ErrAt(c, UnexpectedToken)
  {
  }

  /** Lemma: as written, a second `consume` right after a successful one,
      expecting another token, fails; moving past the token, it succeeds
      exactly when the token after is the one expected. */
  lemma ConsumeThenExpect(m: Consuming, c: Ctx, t: Token, u: Token)
    requires Consume(m, c, t).Ok? && u != t
    ensures m == AsWritten ==> !Consume(m, Consume(m, c, t).c, u).Ok?
    ensures m == Advancing ==>
      (Consume(m, Consume(m, c, t).c, u).Ok? <==> c.ptr + 1 < |c.input.tokens| && c.input.tokens[c.ptr + 1] == u)
  {
  }

  /** The row of the next token (`get_line`). */
  function GetLine(c: Ctx): nat
    requires Valid(c) && c.ptr < |c.input.tokens|
  {
    c.input.cood[c.ptr].0
  }

  /** `get_line` where the next token may be past the end, where the
      index panics. */
  function LineAt(c: Ctx): (r: Res)
    requires Valid(c)
    ensures r.Ok? <==> c.ptr < |c.input.tokens|
    ensures r.Ok? ==> r.c == c && r.n == GetLine(c)
  {
    if c.ptr < |c.input.cood| then Ok(c, c.input.cood[c.ptr].0) else Panic
  }

  // ---------------------------------------------------------------------
  // Emission.
  // ---------------------------------------------------------------------

  /** `emit_with_line`: append an instruction and its line to the
      innermost chunk. */
  function EmitWithLine(c: Ctx, i: B.Instr, line: nat): (r: Ctx)
    requires Valid(c)
    ensures Valid(r) && Same(c, r) && r.ptr == c.ptr
    ensures Code(r) == Code(c) + [i] && Top(r).lines == Top(c).lines + [line]
    ensures Top(r) == Top(c).(bytecodes := Code(c) + [i], lines := Top(c).lines + [line])
    ensures r.symbols == c.symbols && r.captured == c.captured
    ensures |r.chunks| == |c.chunks| && forall d :: 0 <= d < c.depth ==> r.chunks[d] == c.chunks[d]
  {
    var top := Top(c);
    SetTop(c, top.(bytecodes := top.bytecodes + [i], lines := top.lines + [line]))
  }

  /** `emit`: the line is the next token's row, or the token count past
      the end. */
  function Emit(c: Ctx, i: B.Instr): (r: Ctx)
    requires Valid(c)
    ensures Valid(r) && Same(c, r) && r.ptr == c.ptr
    ensures Code(r) == Code(c) + [i] && |Top(r).lines| == |Top(c).lines| + 1
    ensures Top(r).constants == Top(c).constants && Top(r).upvalues == Top(c).upvalues
    ensures Top(r).numLocals == Top(c).numLocals
    ensures r.symbols == c.symbols && r.captured == c.captured
  {
    var line := if c.ptr >= |c.input.tokens| then |c.input.tokens| else c.input.cood[c.ptr].0;
    EmitWithLine(c, i, line)
  }

  /** Lemma: emitting keeps every chunk's instructions and lines the same
      length, adds one instruction at the end of the innermost chunk with
      the line of the next token (or the token count past the end), and
      changes no other scope. */
  lemma EmitKeepsLinesAligned(c: Ctx, i: B.Instr)
    requires Valid(c)
    ensures var r := Emit(c, i);
      && (forall d :: 0 <= d < |r.chunks| ==> |r.chunks[d].bytecodes| == |r.chunks[d].lines|)
      && Code(r)[|Code(c)|] == i
      && Top(r).lines[|Code(c)|] == (if c.ptr < |c.input.tokens| then c.input.cood[c.ptr].0 else |c.input.tokens|)
      && (forall d :: 0 <= d < c.depth ==> r.chunks[d] == c.chunks[d])
  {
    var r := Emit(c, i);
    assert forall d :: 0 <= d < |r.chunks| ==> FrameOk(r.chunks[d], r.symbols[d], r.captured[d]);
  }

  /** Replace the instruction at `at` of the innermost chunk (the jump
      patches); an index past the end panics. */
  function Patch(c: Ctx, at: nat, i: B.Instr): (r: Res)
    requires Valid(c)
    ensures r.Ok? <==> at < |Code(c)|
    ensures r.Ok? ==> Valid(r.c) && Same(c, r.c) && r.c.ptr == c.ptr && Code(r.c) == Code(c)[at := i]
    ensures r.Ok? ==> Top(r.c).lines == Top(c).lines
  {
    if at < |Code(c)| then
      var top := Top(c);
      Ok(SetTop(c, top.(bytecodes := top.bytecodes[at := i])), 0)
    else Panic
  }

  /** The first position of a constant equal to `v` (`position`, with
      `Value`'s `PartialEq`). */
  function Position(cs: seq<B.Value>, v: B.Value, from: nat): (r: Option<nat>)
    requires from <= |cs|
    ensures r.Some? ==> from <= r.value < |cs| && B.ValueEq(cs[r.value], v)
    ensures r.Some? ==> forall j :: from <= j < r.value ==> !B.ValueEq(cs[j], v)
    ensures r.None? ==> forall j :: from <= j < |cs| ==> !B.ValueEq(cs[j], v)
    decreases |cs| - from
  {
    if from == |cs| then None
    else if B.ValueEq(cs[from], v) then Some(from)
    else Position(cs, v, from + 1)
  }

  /** `load_value`: load an equal constant if the pool has one, or add
      the value to the pool and load it. */
  function LoadValue(c: Ctx, v: B.Value): (r: Ctx)
    requires Valid(c)
    ensures Valid(r) && Same(c, r) && r.ptr == c.ptr
    ensures r.symbols == c.symbols && r.captured == c.captured
    ensures Top(r).numLocals == Top(c).numLocals && Top(r).upvalues == Top(c).upvalues
    ensures |Code(r)| == |Code(c)| + 1
    ensures v.ChunkValue? ==> Top(r).constants == Top(c).constants + [v] && Code(r) == Code(c) + [B.Load(|Top(c).constants|)]
  {
    var top := Top(c);
    match Position(top.constants, v, 0)
    case Some(x) => Emit(c, B.Load(x))
    case None =>
      var c1 := SetTop(c, top.(constants := top.constants + [v]));
      Emit(c1, B.Load(|top.constants|))
  }

  /** No two constants of a pool are equal. */
  predicate ConstantsDistinct(cs: seq<B.Value>) {
    forall i, j :: 0 <= i < j < |cs| ==> !B.ValueEq(cs[i], cs[j])
  }

  /** Lemma: `load_value` loads the first constant equal to the value if
      there is one, leaving the pool alone; otherwise it appends the value
      and loads the new last index. Either way the instruction loads a
      constant equal to the value (a chunk, equal to nothing, is always
      appended), and a pool without equal pairs stays so. */
  lemma LoadValueDedups(c: Ctx, v: B.Value)
    requires Valid(c)
    ensures var r := LoadValue(c, v);
      var cs := Top(c).constants;
      && Code(r) == Code(c) + [Code(r)[|Code(c)|]]
      && Code(r)[|Code(c)|].Load?
      && (if exists j :: 0 <= j < |cs| && B.ValueEq(cs[j], v)
          then Top(r).constants == cs && B.ValueEq(cs[Code(r)[|Code(c)|].constant], v)
            && (forall j :: 0 <= j < Code(r)[|Code(c)|].constant ==> !B.ValueEq(cs[j], v))
          else Top(r).constants == cs + [v] && Code(r)[|Code(c)|].constant == |cs|)
      && (ConstantsDistinct(cs) ==> ConstantsDistinct(Top(r).constants))
  {
    var top := Top(c);
    var cs := top.constants;
    match Position(cs, v, 0)
    case Some(x) =>
    case None =>
      var c1 := SetTop(c, top.(constants := cs + [v]));
      assert Top(Emit(c1, B.Load(|cs|))).constants == cs + [v];
      if ConstantsDistinct(cs) {
        var ncs := cs + [v];
        forall i, j | 0 <= i < j < |ncs| ensures !B.ValueEq(ncs[i], ncs[j]) {
          B.ValueEqIsIdentityExceptChunks(ncs[i], ncs[j]);
          B.ValueEqIsIdentityExceptChunks(ncs[j], ncs[i]);
        }
      }
  }

  // ---------------------------------------------------------------------
  // Scopes and symbols.
  // ---------------------------------------------------------------------

  /** `open_env`: a new innermost scope with an empty chunk, symbol table
      and flag list. */
  function OpenEnv(c: Ctx): (r: Ctx)
    requires Valid(c)
    ensures Valid(r) && r.depth == c.depth + 1 && r.input == c.input && r.ptr == c.ptr
    ensures r.chunks == c.chunks + [B.EmptyChunk()]
    ensures r.symbols == c.symbols + [map[]] && r.captured == c.captured + [[]]
  {
    Ctx(c.input, c.ptr, c.chunks + [B.EmptyChunk()], c.symbols + [map[]], c.captured + [[]], c.depth + 1)
  }

  /** `close_env`: emit `Return` with line 0 into the innermost chunk,
      then drop the innermost scope and hand back its chunk; `depth -= 1`
      underflows at the outermost scope. */
  function CloseEnv(c: Ctx): (r: Option<(Ctx, B.Chunk)>)
    requires Valid(c)
    ensures r.Some? <==> c.depth > 0
    ensures r.Some? ==> Valid(r.value.0) && r.value.0.depth == c.depth - 1 && r.value.0.input == c.input
    ensures r.Some? ==> r.value.0.ptr == c.ptr && Top(r.value.0) == c.chunks[c.depth - 1]
    ensures r.Some? ==> r.value.1 == Top(c).(bytecodes := Code(c) + [B.Return], lines := Top(c).lines + [0])
  {
    var c1 := EmitWithLine(c, B.Return, 0);
    if c1.depth == 0 then None
    else
      var r := Ctx(c1.input, c1.ptr, c1.chunks[..c1.depth], c1.symbols[..c1.depth], c1.captured[..c1.depth], c1.depth - 1);
      assert forall d :: 0 <= d < |r.chunks| ==> r.chunks[d] == c1.chunks[d];
      Some((r, c1.chunks[c1.depth]))
  }

  /** Lemma: closing a scope just opened gives the three stacks back as
      they were, and hands back an empty chunk holding only `Return`, at
      line 0. */
  lemma OpenCloseEnv(c: Ctx)
    requires Valid(c)
    ensures CloseEnv(OpenEnv(c)).Some?
    ensures var (r, ch) := CloseEnv(OpenEnv(c)).value;
      && r == c
      && ch == B.EmptyChunk().(bytecodes := [B.Return], lines := [0])
  {
    var o := OpenEnv(c);
    var c1 := EmitWithLine(o, B.Return, 0);
    assert c1.chunks[..c1.depth] == c.chunks;
    assert c1.symbols[..c1.depth] == c.symbols;
    assert c1.captured[..c1.depth] == c.captured;
  }

  /** `add_annoymos_closure`: append a block's chunk to the pool. */
  function AddAnonClosure(c: Ctx, ch: B.Chunk): (r: Ctx)
    requires Valid(c)
    ensures Valid(r) && Same(c, r) && r.ptr == c.ptr
    ensures Top(r).constants == Top(c).constants + [B.ChunkValue(ch)] && Code(r) == Code(c)
  {
    var top := Top(c);
    SetTop(c, top.(constants := top.constants + [B.ChunkValue(ch)]))
  }

  /** `add_local`: a name already in the innermost scope is an error;
      otherwise it names the next local slot, which is not captured. */
  function AddLocal(c: Ctx, name: string): (r: Res)
    requires Valid(c)
    ensures r.Ok? ==> Valid(r.c) && Same(c, r.c) && r.c.ptr == c.ptr
    ensures r.Ok? ==> Code(r.c) == Code(c) && Top(r.c).numLocals == Top(c).numLocals + 1
  {
    var sym := c.symbols[c.depth];
    if name in sym then ErrAt(c, Redeclaration)
    else
      var top := Top(c);
      var r := c.(symbols := c.symbols[c.depth := sym[name := top.numLocals]],
                  captured := c.captured[c.depth := c.captured[c.depth] + [false]],
                  chunks := c.chunks[c.depth := top.(numLocals := top.numLocals + 1)]);
      assert FrameOk(r.chunks[r.depth], r.symbols[r.depth], r.captured[r.depth]);
      assert forall d :: 0 <= d < |r.chunks| && d != r.depth ==> r.chunks[d] == c.chunks[d] && r.symbols[d] == c.symbols[d] && r.captured[d] == c.captured[d];
      Ok(r, 0)
  }

  /** Lemma: `add_local` fails exactly on a name the innermost scope
      already has; otherwise the name gets the old local count as its
      slot, the count grows by one, a `false` flag is appended, and no
      other name or scope changes. */
  lemma AddLocalEffect(c: Ctx, name: string)
    requires Valid(c)
    ensures !AddLocal(c, name).Ok? <==> name in c.symbols[c.depth]
    ensures AddLocal(c, name).Ok? ==>
      var r := AddLocal(c, name).c;
      && r.symbols[r.depth] == c.symbols[c.depth][name := Top(c).numLocals]
      && Top(r).numLocals == Top(c).numLocals + 1
      && r.captured[r.depth] == c.captured[c.depth] + [false]
      && Top(r) == Top(c).(numLocals := Top(c).numLocals + 1)
      && r.chunks[..c.depth] == c.chunks[..c.depth]
      && r.symbols[..c.depth] == c.symbols[..c.depth]
      && r.captured[..c.depth] == c.captured[..c.depth]
  {
  }

  /** The first upvalue of a chunk with the given name. */
  function FindUpvalue(ups: seq<B.UpValueDecl>, name: string, from: nat): (r: Option<nat>)
    requires from <= |ups|
    ensures r.Some? ==> from <= r.value < |ups| && ups[r.value].name == name
    ensures r.None? ==> forall j :: from <= j < |ups| ==> ups[j].name != name
    decreases |ups| - from
  {
    if from == |ups| then None
    else if ups[from].name == name then Some(from)
    else FindUpvalue(ups, name, from + 1)
  }

  /** Append an upvalue to the chunk of scope `d`. */
  function AddUpvalue(c: Ctx, d: nat, u: B.UpValueDecl): (r: Ctx)
    requires Valid(c) && d <= c.depth
    ensures Valid(r) && Same(c, r) && r.ptr == c.ptr
    ensures r.chunks == c.chunks[d := c.chunks[d].(upvalues := c.chunks[d].upvalues + [u])]
    ensures r.symbols == c.symbols && r.captured == c.captured
  {
    var r := c.(chunks := c.chunks[d := c.chunks[d].(upvalues := c.chunks[d].upvalues + [u])]);
    assert forall e :: 0 <= e < |r.chunks| ==> FrameOk(r.chunks[e], r.symbols[e], r.captured[e]) by {
      forall e | 0 <= e < |r.chunks| ensures FrameOk(r.chunks[e], r.symbols[e], r.captured[e]) {
        assert FrameOk(c.chunks[e], c.symbols[e], c.captured[e]);
      }
    }
    r
  }

  /** `resolve`: find a name from scope `dep` outwards, for a function
      nested in it. A local of `dep` is marked captured; an upvalue of
      `dep` is reused; a hit further out becomes a new upvalue of `dep`. */
  function Resolve(c: Ctx, name: string, dep: nat): (r: (Ctx, VarLoc))
    requires Valid(c) && dep <= c.depth
    ensures Valid(r.0) && Same(c, r.0) && r.0.ptr == c.ptr && r.0.symbols == c.symbols
    ensures r.1.UpLocal? || r.1.UpValue? || r.1.NotFound?
    ensures forall e :: dep < e < |c.chunks| ==> r.0.chunks[e] == c.chunks[e]
    ensures |r.0.chunks| == |c.chunks|
    decreases dep
  {
    var sym := c.symbols[dep];
    if name in sym then (MarkCaptured(c, dep, sym[name]), UpLocal(sym[name]))
    else match FindUpvalue(c.chunks[dep].upvalues, name, 0)
      case Some(x) => (c, UpValue(x))
      case None =>
        if dep == 0 then (c, NotFound)
        else
          var (c1, loc) := Resolve(c, name, dep - 1);
          Relay(c1, dep, loc, name)
  }

  /** Mark local `x` of scope `dep` as captured by a nested function. */
  function MarkCaptured(c: Ctx, dep: nat, x: nat): (r: Ctx)
    requires Valid(c) && dep <= c.depth && x < |c.captured[dep]|
    ensures Valid(r) && Same(c, r) && r.ptr == c.ptr && r.symbols == c.symbols && r.chunks == c.chunks
    ensures r.captured == c.captured[dep := c.captured[dep][x := true]]
  {
    var r := c.(captured := c.captured[dep := c.captured[dep][x := true]]);
    assert forall e :: 0 <= e < |r.chunks| ==> FrameOk(r.chunks[e], r.symbols[e], r.captured[e]) by {
      forall e | 0 <= e < |r.chunks| ensures FrameOk(r.chunks[e], r.symbols[e], r.captured[e]) {
        assert FrameOk(c.chunks[e], c.symbols[e], c.captured[e]);
      }
    }
    r
  }

  /** What `resolve` in scope `dep` makes of a hit further out: a local
      or an upvalue there becomes a new upvalue of `dep`, referring to
      it; a miss stays a miss. */
  function Relay(c: Ctx, dep: nat, loc: VarLoc, name: string): (r: (Ctx, VarLoc))
    requires Valid(c) && dep <= c.depth
    ensures Valid(r.0) && Same(c, r.0) && r.0.ptr == c.ptr && r.0.symbols == c.symbols
    ensures r.1.NotFound? <==> !(loc.UpLocal? || loc.UpValue?)
    ensures r.1.UpValue? || r.1.NotFound?
    ensures forall e :: dep < e < |c.chunks| ==> r.0.chunks[e] == c.chunks[e]
    ensures loc.UpLocal? ==> r == (AddUpvalue(c, dep, B.Ref(loc.outer, name)), UpValue(|c.chunks[dep].upvalues|))
  {
    var n := |c.chunks[dep].upvalues|;
    match loc
    case UpLocal(x) => (AddUpvalue(c, dep, B.Ref(x, name)), UpValue(n))
    case UpValue(x) => (AddUpvalue(c, dep, B.RefUpValue(x, name)), UpValue(n))
    case _ => (c, NotFound)
  }

  /** `resolve_local`: the innermost scope's locals, then its upvalues,
      then the enclosing scopes (adding an upvalue), then the globals. */
  function ResolveLocal(c: Ctx, name: string): (r: (Ctx, VarLoc))
    requires Valid(c)
    ensures Valid(r.0) && Same(c, r.0) && r.0.ptr == c.ptr && r.0.symbols == c.symbols
    ensures !r.1.UpLocal?
  {
    if name in c.symbols[c.depth] then (c, Local(c.symbols[c.depth][name]))
    else match FindUpvalue(Top(c).upvalues, name, 0)
      case Some(x) => (c, UpValue(x))
      case None =>
        match FromEnclosing(c, name)
        case Some(hit) => hit
        case None =>
          if name in c.input.globals then (c, Global(c.input.globals[name]))
          else (c, NotFound)
  }

  /** The enclosing-scopes step of `resolve_local`: a hit in the scope
      around the innermost one, or further out, becomes a new upvalue of
      the innermost chunk. */
  function FromEnclosing(c: Ctx, name: string): (r: Option<(Ctx, VarLoc)>)
    requires Valid(c)
    ensures r.Some? ==> Valid(r.value.0) && Same(c, r.value.0) && r.value.0.ptr == c.ptr
    ensures r.Some? ==> r.value.0.symbols == c.symbols && r.value.1 == UpValue(|Top(c).upvalues|)
  {
    if c.depth == 0 then None
    else
      var (c1, loc) := Resolve(c, name, c.depth - 1);
      var n := |Top(c1).upvalues|;
      match loc
      case UpLocal(x) => Some((AddUpvalue(c1, c1.depth, B.Ref(x, name)), UpValue(n)))
      case UpValue(x) => Some((AddUpvalue(c1, c1.depth, B.RefUpValue(x, name)), UpValue(n)))
      case _ => None
  }

  /** A name is a local or an upvalue of some scope from `dep` outwards. */
  predicate Visible(c: Ctx, name: string, dep: nat)
    requires Valid(c) && dep <= c.depth
  {
    exists d :: 0 <= d <= dep && (name in c.symbols[d] || FindUpvalue(c.chunks[d].upvalues, name, 0).Some?)
  }

  /** Lemma: where scope `dep` neither has the name as a local nor as an
      upvalue, `resolve` in `dep` fails exactly when it fails one scope
      further out. */
  lemma ResolveStep(c: Ctx, name: string, dep: nat)
    requires Valid(c) && 0 < dep <= c.depth
    requires name !in c.symbols[dep] && FindUpvalue(c.chunks[dep].upvalues, name, 0).None?
    ensures Resolve(c, name, dep).1.NotFound? <==> Resolve(c, name, dep - 1).1.NotFound?
  {
  }

  /** Lemma: such a scope adds nothing to what is visible from it. */
  lemma VisibleStep(c: Ctx, name: string, dep: nat)
    requires Valid(c) && 0 < dep <= c.depth
    requires name !in c.symbols[dep] && FindUpvalue(c.chunks[dep].upvalues, name, 0).None?
    ensures Visible(c, name, dep) <==> Visible(c, name, dep - 1)
  {
    if Visible(c, name, dep) {
      var d :| 0 <= d <= dep && (name in c.symbols[d] || FindUpvalue(c.chunks[d].upvalues, name, 0).Some?);
      assert d < dep;
    }
  }

  /** Lemma: a name that scope `dep` has as a local or an upvalue is
      found there. */
  lemma ResolveHit(c: Ctx, name: string, dep: nat)
    requires Valid(c) && dep <= c.depth
    requires name in c.symbols[dep] || FindUpvalue(c.chunks[dep].upvalues, name, 0).Some?
    ensures !Resolve(c, name, dep).1.NotFound? && Visible(c, name, dep)
  {
    assert 0 <= dep <= dep;
  }

  /** Lemma: a name the outermost scope has neither as a local nor as an
      upvalue is not found there, and is not visible from it. */
  lemma ResolveOutermostMiss(c: Ctx, name: string)
    requires Valid(c)
    requires name !in c.symbols[0] && FindUpvalue(c.chunks[0].upvalues, name, 0).None?
    ensures Resolve(c, name, 0).1.NotFound? && !Visible(c, name, 0)
  {
  }

  /** Lemma: `resolve` fails exactly when no scope from `dep` outwards
      has the name as a local or an upvalue. */
  lemma {:induction false} ResolveFindsVisible(c: Ctx, name: string, dep: nat)
    requires Valid(c) && dep <= c.depth
    ensures Resolve(c, name, dep).1.NotFound? <==> !Visible(c, name, dep)
    decreases dep
  {
    if name in c.symbols[dep] || FindUpvalue(c.chunks[dep].upvalues, name, 0).Some? {
      ResolveHit(c, name, dep);
    } else if dep == 0 {
      ResolveOutermostMiss(c, name);
    } else {
      ResolveStep(c, name, dep);
      VisibleStep(c, name, dep);
      ResolveFindsVisible(c, name, dep - 1);
    }
  }

  /** Lemma: a local of scope `dep` itself is resolved to its slot and
      marked captured there. */
  lemma ResolveCapturesLocal(c: Ctx, name: string, dep: nat)
    requires Valid(c) && dep <= c.depth && name in c.symbols[dep]
    ensures var (r, loc) := Resolve(c, name, dep);
      loc == UpLocal(c.symbols[dep][name]) && r.captured[dep][c.symbols[dep][name]]
      && r.chunks == c.chunks
  {
  }

  /** Lemma: `resolve_local` finds a local of the innermost scope as its
      slot, and an upvalue of it as that upvalue, changing nothing. */
  lemma ResolveLocalInnermost(c: Ctx, name: string)
    requires Valid(c)
    ensures var (r, loc) := ResolveLocal(c, name);
      && (name in c.symbols[c.depth] ==> r == c && loc == Local(c.symbols[c.depth][name]))
      && (name !in c.symbols[c.depth] && FindUpvalue(Top(c).upvalues, name, 0).Some? ==>
            r == c && loc == UpValue(FindUpvalue(Top(c).upvalues, name, 0).value))
  {
  }

  /** Lemma: the enclosing-scopes step finds a name exactly when some
      scope around the innermost one has it as a local or an upvalue. */
  lemma FromEnclosingFindsVisible(c: Ctx, name: string)
    requires Valid(c)
    ensures FromEnclosing(c, name).Some? <==> c.depth >= 1 && Visible(c, name, c.depth - 1)
  {
    if c.depth >= 1 {
      ResolveFindsVisible(c, name, c.depth - 1);
    }
  }

  /** Lemma: `resolve_local` goes to the globals only for a name no scope
      has as a local or an upvalue, and then changes nothing: a global if
      the globals have it, not found otherwise. */
  lemma ResolveLocalGlobals(c: Ctx, name: string)
    requires Valid(c) && !Visible(c, name, c.depth)
    ensures var (r, loc) := ResolveLocal(c, name);
      r == c && loc == (if name in c.input.globals then Global(c.input.globals[name]) else NotFound)
  {
    if name in c.symbols[c.depth] || FindUpvalue(Top(c).upvalues, name, 0).Some? {
      ResolveHit(c, name, c.depth);
    } else {
      FromEnclosingFindsVisible(c, name);
      if c.depth >= 1 {
        VisibleStep(c, name, c.depth);
      }
    }
  }

  /** Lemma: a name some scope has as a local or an upvalue is found as
      a local or an upvalue, never as a global. */
  lemma ResolveLocalFindsVisible(c: Ctx, name: string)
    requires Valid(c) && Visible(c, name, c.depth)
    ensures ResolveLocal(c, name).1.Local? || ResolveLocal(c, name).1.UpValue?
  {
    if name !in c.symbols[c.depth] && FindUpvalue(Top(c).upvalues, name, 0).None? {
      FromEnclosingFindsVisible(c, name);
      if c.depth >= 1 {
        VisibleStep(c, name, c.depth);
      }
    }
  }

  /** Lemma: a local of the directly enclosing scope, not shadowed in the
      innermost one, is reached through a new upvalue of the innermost
      chunk that refers to its slot, and is marked captured. */
  lemma ResolveLocalCapturesEnclosing(c: Ctx, name: string)
    requires Valid(c) && c.depth >= 1
    requires name !in c.symbols[c.depth] && FindUpvalue(Top(c).upvalues, name, 0).None?
    requires name in c.symbols[c.depth - 1]
    ensures var (r, loc) := ResolveLocal(c, name);
      var slot := c.symbols[c.depth - 1][name];
      && loc == UpValue(|Top(c).upvalues|)
      && Top(r).upvalues == Top(c).upvalues + [B.Ref(slot, name)]
      && r.captured[c.depth - 1][slot]
  {
    ResolveCapturesLocal(c, name, c.depth - 1);
  }

  // ---------------------------------------------------------------------
  // Expressions.
  // ---------------------------------------------------------------------

  /** The value of a number lexeme (`parse::<f64>` of the scanner, read
      exactly: the digits as an integer, scaled down by the digits after
      the point). */
  function NumberValue(lexeme: string): real {
    Mantissa(lexeme) as real / Pow10(FracDigits(lexeme, false)) as real
  }

  function Mantissa(t: string): nat {
    if |t| == 0 then 0
    else if '0' <= t[|t| - 1] <= '9' then Mantissa(t[..|t| - 1]) * 10 + (t[|t| - 1] - '0') as nat
    else Mantissa(t[..|t| - 1])
  }

  function FracDigits(t: string, seenDot: bool): nat {
    if |t| == 0 then 0
    else if t[0] == '.' then FracDigits(t[1..], true)
    else (if seenDot then 1 else 0) + FracDigits(t[1..], seenDot)
  }

  function Pow10(n: nat): (p: nat)
    ensures p >= 1
  {
    if n == 0 then 1 else 10 * Pow10(n - 1)
  }

  /** The instruction that reads a resolved name (`emit_get_symbol`'s
      arms, as inlined in `parse_rval_expr`). */
  function EmitGet(c: Ctx, loc: VarLoc): (r: Res)
    requires Valid(c)
    ensures r.Ok? <==> !loc.NotFound?
    ensures r.Ok? ==> Valid(r.c) && Same(c, r.c) && r.c.ptr == c.ptr && |Code(r.c)| == |Code(c)| + 1
  {
    match loc
    case Local(x) => Ok(Emit(c, B.GetLocal(x)), 0)
    case UpValue(x) => Ok(Emit(c, B.GetUpValue(x)), 0)
    case UpLocal(x) => Ok(Emit(c, B.GetUpValue(x)), 0)
    case Global(x) => Ok(Emit(c, B.GetGlobal(x)), 0)
    case NotFound => ErrAt(c, SymbolNotFound)
  }

  /** The tokens with an arm in the prefix part of `parse_rval_expr`. */
  predicate StartsOperand(t: Token) {
    t.Symbol? || t.Number? || t.String? || t == True || t == False || t == Nil
    || t == Array || t == Dict || t == Sub || t == Not || t == LParen
  }

  // ---------------------------------------------------------------------
  // Operator chains: a reference for the code of an infix expression.
  // ---------------------------------------------------------------------

  /** `true` and `false` are the operands that emit one instruction
      whatever the state: no name to resolve, no constant to pool. */
  predicate IsBoolLiteral(t: Token) { t == True || t == False }

  function LiteralInstr(t: Token): B.Instr {
    if t == True then B.LoadTrue else B.LoadFalse
  }

  /** A chain from `i`: a literal, then any number of operators with an
      instruction, each followed by a literal, then the end of the input
      or a token with no level (such as `;` or `)`). */
  predicate ChainFrom(ts: seq<Token>, i: nat)
    decreases |ts| - i, 1
  {
    i < |ts| && IsBoolLiteral(ts[i]) && ChainRest(ts, i + 1)
  }

  /** What may follow an operand in a chain. */
  predicate ChainRest(ts: seq<Token>, j: nat)
    decreases |ts| - j, 0
  {
    j == |ts| ||
    (j < |ts| && (GetPrecedence(ts[j]) == Prec.NoLevel || (BinaryInstr(ts[j]).Some? && ChainFrom(ts, j + 1))))
  }

  /** Precedence climbing, stated on the tokens alone: the postfix code of
      the operand at `i` followed by every operator that binds tighter
      than `prec`, and where that expression ends. It is meant for chains
      (`ChainFrom`); `ClimbBounds` states where it ends on one. */
  function Climb(ts: seq<Token>, i: nat, prec: Prec): (r: (seq<B.Instr>, nat))
    requires i < |ts|
    ensures i < r.1 <= |ts|
    decreases |ts| - i, 1
  {
    var (code, k) := ClimbRest(ts, i + 1, prec);
    ([LiteralInstr(ts[i])] + code, k)
  }

  /** The operators after an operand: one binding tighter than `prec`
      takes as its right operand everything that binds tighter than
      itself, and its instruction follows that operand's code. */
  function ClimbRest(ts: seq<Token>, j: nat, prec: Prec): (r: (seq<B.Instr>, nat))
    requires j <= |ts|
    ensures j <= r.1 <= |ts|
    decreases |ts| - j, 0
  {
    if j + 1 < |ts| && BinaryInstr(ts[j]).Some? && Rank(GetPrecedence(ts[j])) > Rank(prec) then
      var (right, k) := Climb(ts, j + 1, GetPrecedence(ts[j]));
      var (more, k2) := ClimbRest(ts, k, prec);
      (right + [BinaryInstr(ts[j]).value] + more, k2)
    else ([], j)
  }

  /** Lemma: on a chain, an operand and what binds to it end where the
      chain may go on or stop. */
  lemma {:induction false} ClimbBounds(ts: seq<Token>, i: nat, prec: Prec)
    requires ChainFrom(ts, i)
    ensures i < Climb(ts, i, prec).1 <= |ts| && ChainRest(ts, Climb(ts, i, prec).1)
    decreases |ts| - i, 1
  {
    ClimbRestBounds(ts, i + 1, prec);
  }

  /** Lemma: on a chain, the operators after an operand end where the
      chain may go on or stop. */
  lemma {:induction false} ClimbRestBounds(ts: seq<Token>, j: nat, prec: Prec)
    requires ChainRest(ts, j)
    ensures j <= ClimbRest(ts, j, prec).1 <= |ts| && ChainRest(ts, ClimbRest(ts, j, prec).1)
    decreases |ts| - j, 0
  {
    if j + 1 < |ts| && BinaryInstr(ts[j]).Some? && Rank(GetPrecedence(ts[j])) > Rank(prec) {
      var k := Climb(ts, j + 1, GetPrecedence(ts[j])).1;
      ClimbBounds(ts, j + 1, GetPrecedence(ts[j]));
      ClimbRestBounds(ts, k, prec);
    }
  }

  /** `a op b op c` with literal operands: the shape of the lemmas below. */
  predicate ThreeOperands(ts: seq<Token>) {
    |ts| == 5 && IsBoolLiteral(ts[0]) && IsBoolLiteral(ts[2]) && IsBoolLiteral(ts[4]) &&
    BinaryInstr(ts[1]).Some? && BinaryInstr(ts[3]).Some?
  }

  /** Three literals and two operators form a chain. */
  lemma ThreeOperandChain(ts: seq<Token>)
    requires ThreeOperands(ts)
    ensures ChainRest(ts, 5) && ChainFrom(ts, 4) && ChainRest(ts, 3)
    ensures ChainFrom(ts, 2) && ChainRest(ts, 1) && ChainFrom(ts, 0)
  {
    assert ChainRest(ts, 5);
    assert ChainFrom(ts, 4);
    assert ChainRest(ts, 3);
    assert ChainFrom(ts, 2);
    assert ChainRest(ts, 1);
  }

  /** `ClimbRest` at an operator that binds no tighter than `prec`, or at
      the end of a chain: nothing. */
  lemma ClimbRestStops(ts: seq<Token>, j: nat, prec: Prec)
    requires ChainRest(ts, j)
    requires j == |ts| || GetPrecedence(ts[j]) == Prec.NoLevel || Rank(GetPrecedence(ts[j])) <= Rank(prec)
    ensures ClimbRest(ts, j, prec) == ([], j)
  {
    if j < |ts| {
      BinaryOperatorLevels(ts[j]);
    }
  }

  /** `ClimbRest` at an operator that binds tighter than `prec`. */
  lemma ClimbRestTakes(ts: seq<Token>, j: nat, prec: Prec, right: seq<B.Instr>, k: nat, more: seq<B.Instr>, k2: nat)
    requires ChainRest(ts, j) && j < |ts| && BinaryInstr(ts[j]).Some? && Rank(GetPrecedence(ts[j])) > Rank(prec)
    requires ChainFrom(ts, j + 1) && Climb(ts, j + 1, GetPrecedence(ts[j])) == (right, k)
    requires ChainRest(ts, k) && ClimbRest(ts, k, prec) == (more, k2)
    ensures ClimbRest(ts, j, prec) == (right + [BinaryInstr(ts[j]).value] + more, k2)
  {
  }

  /** `Climb` of a literal followed by nothing that binds tighter. */
  lemma ClimbLiteral(ts: seq<Token>, i: nat, prec: Prec)
    requires ChainFrom(ts, i)
    requires i + 1 == |ts| || GetPrecedence(ts[i + 1]) == Prec.NoLevel || Rank(GetPrecedence(ts[i + 1])) <= Rank(prec)
    ensures Climb(ts, i, prec) == ([LiteralInstr(ts[i])], i + 1)
  {
    ClimbRestStops(ts, i + 1, prec);
    assert [LiteralInstr(ts[i])] + [] == [LiteralInstr(ts[i])];
  }

  /** `Climb` of a literal followed by operators whose code is known. */
  lemma ClimbFrom(ts: seq<Token>, i: nat, prec: Prec, code: seq<B.Instr>, k: nat)
    requires ChainFrom(ts, i) && ChainRest(ts, i + 1) && ClimbRest(ts, i + 1, prec) == (code, k)
    ensures Climb(ts, i, prec) == ([LiteralInstr(ts[i])] + code, k)
  {
  }

  /** The operators after the first operand of `a op b op c` at one level. */
  lemma SameLevelRest(ts: seq<Token>)
    requires ThreeOperands(ts) && GetPrecedence(ts[1]) == GetPrecedence(ts[3])
    ensures ChainRest(ts, 1)
    ensures ClimbRest(ts, 1, Prec.Lowest) ==
      ([LiteralInstr(ts[2]), BinaryInstr(ts[1]).value, LiteralInstr(ts[4]), BinaryInstr(ts[3]).value], 5)
  {
    ThreeOperandChain(ts);
    BinaryOperatorLevels(ts[1]);
    var p := GetPrecedence(ts[1]);
    var (i1, l2, i3, l4) := (BinaryInstr(ts[1]).value, LiteralInstr(ts[2]), BinaryInstr(ts[3]).value, LiteralInstr(ts[4]));
    ClimbLiteral(ts, 2, p);
    ClimbLiteral(ts, 4, p);
    ClimbRestStops(ts, 5, Prec.Lowest);
    ClimbRestTakes(ts, 3, Prec.Lowest, [l4], 5, [], 5);
    ClimbRestTakes(ts, 1, Prec.Lowest, [l2], 3, [l4] + [i3] + [], 5);
    assert [l2] + [i1] + ([l4] + [i3] + []) == [l2, i1, l4, i3];
  }

  /** Lemma: with two operators of one level, the first is applied first
      (left associativity): `a - b - c` is `(a - b) - c`. */
  lemma ClimbSameLevelAssociatesLeft(ts: seq<Token>)
    requires ThreeOperands(ts) && GetPrecedence(ts[1]) == GetPrecedence(ts[3])
    ensures ChainFrom(ts, 0)
    ensures Climb(ts, 0, Prec.Lowest) ==
      ([LiteralInstr(ts[0]), LiteralInstr(ts[2]), BinaryInstr(ts[1]).value,
        LiteralInstr(ts[4]), BinaryInstr(ts[3]).value], 5)
  {
    ThreeOperandChain(ts);
    SameLevelRest(ts);
    var rest := [LiteralInstr(ts[2]), BinaryInstr(ts[1]).value, LiteralInstr(ts[4]), BinaryInstr(ts[3]).value];
    ClimbFrom(ts, 0, Prec.Lowest, rest, 5);
    assert [LiteralInstr(ts[0])] + rest == [LiteralInstr(ts[0]), LiteralInstr(ts[2]), BinaryInstr(ts[1]).value,
      LiteralInstr(ts[4]), BinaryInstr(ts[3]).value];
  }

  /** The operators after the first operand of `a op b op c` where the
      second operator binds tighter. */
  lemma TighterRest(ts: seq<Token>)
    requires ThreeOperands(ts) && Rank(GetPrecedence(ts[1])) < Rank(GetPrecedence(ts[3]))
    ensures ChainRest(ts, 1)
    ensures ClimbRest(ts, 1, Prec.Lowest) ==
      ([LiteralInstr(ts[2]), LiteralInstr(ts[4]), BinaryInstr(ts[3]).value, BinaryInstr(ts[1]).value], 5)
  {
    ThreeOperandChain(ts);
    BinaryOperatorLevels(ts[1]);
    var p := GetPrecedence(ts[1]);
    var q := GetPrecedence(ts[3]);
    var (i1, l2, i3, l4) := (BinaryInstr(ts[1]).value, LiteralInstr(ts[2]), BinaryInstr(ts[3]).value, LiteralInstr(ts[4]));
    ClimbLiteral(ts, 4, q);
    ClimbRestStops(ts, 5, p);
    ClimbRestTakes(ts, 3, p, [l4], 5, [], 5);
    assert [l4] + [i3] + [] == [l4, i3];
    ClimbFrom(ts, 2, p, [l4, i3], 5);
    assert [l2] + [l4, i3] == [l2, l4, i3];
    ClimbRestStops(ts, 5, Prec.Lowest);
    ClimbRestTakes(ts, 1, Prec.Lowest, [l2, l4, i3], 5, [], 5);
    assert [l2, l4, i3] + [i1] + [] == [l2, l4, i3, i1];
  }

  /** Lemma: a tighter second operator takes the middle operand first:
      `a + b * c` is `a + (b * c)`. */
  lemma ClimbTighterBindsFirst(ts: seq<Token>)
    requires ThreeOperands(ts) && Rank(GetPrecedence(ts[1])) < Rank(GetPrecedence(ts[3]))
    ensures ChainFrom(ts, 0)
    ensures Climb(ts, 0, Prec.Lowest) ==
      ([LiteralInstr(ts[0]), LiteralInstr(ts[2]), LiteralInstr(ts[4]),
        BinaryInstr(ts[3]).value, BinaryInstr(ts[1]).value], 5)
  {
    ThreeOperandChain(ts);
    TighterRest(ts);
    var rest := [LiteralInstr(ts[2]), LiteralInstr(ts[4]), BinaryInstr(ts[3]).value, BinaryInstr(ts[1]).value];
    ClimbFrom(ts, 0, Prec.Lowest, rest, 5);
    assert [LiteralInstr(ts[0])] + rest == [LiteralInstr(ts[0]), LiteralInstr(ts[2]), LiteralInstr(ts[4]),
      BinaryInstr(ts[3]).value, BinaryInstr(ts[1]).value];
  }

  /** The operators after the first operand of `a op b op c` where the
      second operator binds looser. */
  lemma LooserRest(ts: seq<Token>)
    requires ThreeOperands(ts) && Rank(GetPrecedence(ts[3])) < Rank(GetPrecedence(ts[1]))
    ensures ChainRest(ts, 1)
    ensures ClimbRest(ts, 1, Prec.Lowest) ==
      ([LiteralInstr(ts[2]), BinaryInstr(ts[1]).value, LiteralInstr(ts[4]), BinaryInstr(ts[3]).value], 5)
  {
    ThreeOperandChain(ts);
    BinaryOperatorLevels(ts[3]);
    var p := GetPrecedence(ts[1]);
    var q := GetPrecedence(ts[3]);
    var (i1, l2, i3, l4) := (BinaryInstr(ts[1]).value, LiteralInstr(ts[2]), BinaryInstr(ts[3]).value, LiteralInstr(ts[4]));
    ClimbLiteral(ts, 2, p);
    ClimbLiteral(ts, 4, q);
    ClimbRestStops(ts, 5, Prec.Lowest);
    ClimbRestTakes(ts, 3, Prec.Lowest, [l4], 5, [], 5);
    ClimbRestTakes(ts, 1, Prec.Lowest, [l2], 3, [l4] + [i3] + [], 5);
    assert [l2] + [i1] + ([l4] + [i3] + []) == [l2, i1, l4, i3];
  }

  /** Lemma: a looser second operator waits for the first: `a * b + c` is
      `(a * b) + c`. */
  lemma ClimbLooserWaits(ts: seq<Token>)
    requires ThreeOperands(ts) && Rank(GetPrecedence(ts[3])) < Rank(GetPrecedence(ts[1]))
    ensures ChainFrom(ts, 0)
    ensures Climb(ts, 0, Prec.Lowest) ==
      ([LiteralInstr(ts[0]), LiteralInstr(ts[2]), BinaryInstr(ts[1]).value,
        LiteralInstr(ts[4]), BinaryInstr(ts[3]).value], 5)
  {
    ThreeOperandChain(ts);
    LooserRest(ts);
    var rest := [LiteralInstr(ts[2]), BinaryInstr(ts[1]).value, LiteralInstr(ts[4]), BinaryInstr(ts[3]).value];
    ClimbFrom(ts, 0, Prec.Lowest, rest, 5);
    assert [LiteralInstr(ts[0])] + rest == [LiteralInstr(ts[0]), LiteralInstr(ts[2]), BinaryInstr(ts[1]).value,
      LiteralInstr(ts[4]), BinaryInstr(ts[3]).value];
  }

  /** Lemma (example): `true - false - true` compiles to
      `LoadTrue, LoadFalse, Sub, LoadTrue, Sub`. */
  lemma ClimbExampleSub()
    ensures ChainFrom([True, Sub, False, Sub, True], 0)
    ensures Climb([True, Sub, False, Sub, True], 0, Prec.Lowest) ==
      ([B.LoadTrue, B.LoadFalse, B.Sub, B.LoadTrue, B.Sub], 5)
  {
    var ts := [True, Sub, False, Sub, True];
    assert ThreeOperands(ts) && BinaryInstr(Sub) == Some(B.Sub);
    ClimbSameLevelAssociatesLeft(ts);
  }

  /** Lemma (example): `true + false * true` compiles to
      `LoadTrue, LoadFalse, LoadTrue, Mul, Add`. */
  lemma ClimbExampleMul()
    ensures ChainFrom([True, Add, False, Star, True], 0)
    ensures Climb([True, Add, False, Star, True], 0, Prec.Lowest) ==
      ([B.LoadTrue, B.LoadFalse, B.LoadTrue, B.Mul, B.Add], 5)
  {
    var ts := [True, Add, False, Star, True];
    assert ThreeOperands(ts) && BinaryInstr(Add) == Some(B.Add) && BinaryInstr(Star) == Some(B.Mul);
    ClimbTighterBindsFirst(ts);
  }

  /** The first token of a chain is a literal operand. */
  lemma ChainStarts(ts: seq<Token>, i: nat)
    requires ChainFrom(ts, i)
    ensures i < |ts| && IsBoolLiteral(ts[i]) && StartsOperand(ts[i]) && ChainRest(ts, i + 1)
  {
  }

  /** The code of a literal operand followed by the code of the infix
      loop after it is the code `Climb` gives: `c0` is the code before
      the operand and `cr` the code after the loop. */
  lemma RvalFollowsClimb(ts: seq<Token>, i: nat, prec: Prec, c0: seq<B.Instr>, co: seq<B.Instr>, cr: seq<B.Instr>, kr: nat)
    requires i < |ts|
    requires co == c0 + [LiteralInstr(ts[i])]
    requires cr == co + ClimbRest(ts, i + 1, prec).0 && kr == ClimbRest(ts, i + 1, prec).1
    ensures cr == c0 + Climb(ts, i, prec).0 && kr == Climb(ts, i, prec).1
  {
    assert c0 + [LiteralInstr(ts[i])] + ClimbRest(ts, i + 1, prec).0 ==
      c0 + ([LiteralInstr(ts[i])] + ClimbRest(ts, i + 1, prec).0);
  }

  /** What may follow an operand in a chain, case by case: the end, a
      token with no level (`ClimbRest` is then empty), or an operator with
      an instruction that the infix loop handles as a binary operator. */
  lemma ChainRestCases(ts: seq<Token>, j: nat, prec: Prec)
    requires ChainRest(ts, j)
    ensures j == |ts| || GetPrecedence(ts[j]) == Prec.NoLevel || Rank(GetPrecedence(ts[j])) <= Rank(prec) ==>
      ClimbRest(ts, j, prec) == ([], j)
    ensures j < |ts| && GetPrecedence(ts[j]) != Prec.NoLevel ==>
      BinaryInstr(ts[j]).Some? && ChainFrom(ts, j + 1) && IsInfixOperator(ts[j])
  {
    if j == |ts| || GetPrecedence(ts[j]) == Prec.NoLevel || Rank(GetPrecedence(ts[j])) <= Rank(prec) {
      ClimbRestStops(ts, j, prec);
    }
  }

  /** The code of an operator's right operand, its instruction and the
      code of the rest of the loop is the code `ClimbRest` gives: `c0` is
      the code before the operator, `ca` after its right operand, `ce`
      after its instruction and `cr` after the rest of the loop. */
  lemma InfixFollowsClimb(ts: seq<Token>, j: nat, prec: Prec, c0: seq<B.Instr>, ca: seq<B.Instr>, ka: nat,
                          ce: seq<B.Instr>, cr: seq<B.Instr>, kr: nat)
    requires ChainRest(ts, j) && j < |ts| && BinaryInstr(ts[j]).Some? && Rank(GetPrecedence(ts[j])) > Rank(prec)
    requires ChainFrom(ts, j + 1)
    requires ca == c0 + Climb(ts, j + 1, GetPrecedence(ts[j])).0 && ka == Climb(ts, j + 1, GetPrecedence(ts[j])).1
    requires ce == ca + [BinaryInstr(ts[j]).value]
    requires ChainRest(ts, ka) && cr == ce + ClimbRest(ts, ka, prec).0 && kr == ClimbRest(ts, ka, prec).1
    ensures cr == c0 + ClimbRest(ts, j, prec).0 && kr == ClimbRest(ts, j, prec).1
  {
    var right := Climb(ts, j + 1, GetPrecedence(ts[j])).0;
    var more := ClimbRest(ts, ka, prec).0;
    var i := BinaryInstr(ts[j]).value;
    ClimbRestTakes(ts, j, prec, right, ka, more, kr);
    AppendRegroup(c0, right, i, more);
  }

  /** Concatenation regrouped around one element. */
  lemma AppendRegroup<T>(a: seq<T>, b: seq<T>, x: T, c: seq<T>)
    ensures a + b + [x] + c == a + (b + [x] + c)
  {
  }

  /** What every parse routine keeps: a consistent state, the same input
      and scope depth, and a pointer that never moves back. */
  predicate Keeps(c: Ctx, r: Res) {
    r.Ok? ==> Valid(r.c) && Same(c, r.c) && r.c.ptr >= c.ptr
  }

  /** `parse_rval_expr`: an operand, then the infix loop. A token that
      starts no operand ends the expression at once, emitting nothing. */
  method ParseRval(m: Consuming, c: Ctx, prec: Prec, fuel: nat) returns (r: Res)
    requires Valid(c)
    ensures Keeps(c, r)
    ensures fuel > 0 && Peek(c).Some? && !StartsOperand(Peek(c).value) ==> r == Ok(c, 0)
    ensures fuel > 0 && Peek(c).None? ==> r == ErrAt(c, UnexpectedEof)
    ensures fuel == 0 ==> r == NoFuel
    ensures ChainFrom(c.input.tokens, c.ptr) && fuel >= 2 * (|c.input.tokens| - c.ptr) + 2 ==>
      r.Ok? && Code(r.c) == Code(c) + Climb(c.input.tokens, c.ptr, prec).0 &&
      r.c.ptr == Climb(c.input.tokens, c.ptr, prec).1
    decreases fuel, 2
  {
    if fuel == 0 {
      return NoFuel;
    }
    if ChainFrom(c.input.tokens, c.ptr) {
      ChainStarts(c.input.tokens, c.ptr);
    }
    match Peek(c)
    case None =>
      return EofErr(c);
    case Some(tok) =>
      if !StartsOperand(tok) {
        return Ok(c, 0);
      }
      r := OperandThenInfix(m, c, tok, prec, fuel - 1);
  }

  /** The chain step of `OperandThenInfix`, from what `Operand` and
      `InfixLoop` promise: a literal operand followed by the infix loop
      emits the code `Climb` gives. */
  lemma OperandThenInfixChain(c: Ctx, tok: Token, prec: Prec, fuel: nat, o: Res, r: Res)
    requires Valid(c) && Peek(c) == Some(tok)
    requires ChainFrom(c.input.tokens, c.ptr) && fuel >= 2 * (|c.input.tokens| - c.ptr) + 1
    requires Keeps(c, o) && o.Ok?
    requires fuel > 0 && IsBoolLiteral(tok) ==>
      o.Ok? && o.c.input == c.input && o.c.ptr == c.ptr + 1 && Code(o.c) == Code(c) + [LiteralInstr(tok)]
    requires Keeps(o.c, r)
    requires ChainRest(o.c.input.tokens, o.c.ptr) && fuel >= 2 * (|o.c.input.tokens| - o.c.ptr) + 1 ==>
      r.Ok? && Code(r.c) == Code(o.c) + ClimbRest(o.c.input.tokens, o.c.ptr, prec).0 &&
      r.c.ptr == ClimbRest(o.c.input.tokens, o.c.ptr, prec).1
    ensures r.Ok? && Code(r.c) == Code(c) + Climb(c.input.tokens, c.ptr, prec).0
    ensures r.c.ptr == Climb(c.input.tokens, c.ptr, prec).1
  {
    ChainStarts(c.input.tokens, c.ptr);
    RvalFollowsClimb(c.input.tokens, c.ptr, prec, Code(c), Code(o.c), Code(r.c), r.c.ptr);
  }

  /** The operand of an expression, then the infix loop after it. */
  method OperandThenInfix(m: Consuming, c: Ctx, tok: Token, prec: Prec, fuel: nat) returns (r: Res)
    requires Valid(c) && Peek(c) == Some(tok) && StartsOperand(tok)
    ensures Keeps(c, r)
    ensures ChainFrom(c.input.tokens, c.ptr) && fuel >= 2 * (|c.input.tokens| - c.ptr) + 1 ==>
      r.Ok? && Code(r.c) == Code(c) + Climb(c.input.tokens, c.ptr, prec).0 &&
      r.c.ptr == Climb(c.input.tokens, c.ptr, prec).1
    decreases fuel, 4
  {
    var o :- Operand(m, c, tok, fuel);
    r := InfixLoop(m, o.c, prec, fuel);
    if ChainFrom(c.input.tokens, c.ptr) && fuel >= 2 * (|c.input.tokens| - c.ptr) + 1 {
      OperandThenInfixChain(c, tok, prec, fuel, o, r);
    }
  }

  /** The prefix part of `parse_rval_expr`, on its first token `tok`. A
      `nil` emits `PushNil` and stays on the `nil` token. */
  method Operand(m: Consuming, c: Ctx, tok: Token, fuel: nat) returns (r: Res)
    requires Valid(c) && Peek(c) == Some(tok) && StartsOperand(tok)
    ensures Keeps(c, r)
    ensures fuel > 0 && tok == Nil ==> r == Ok(Emit(c, B.PushNil), 0)
    ensures fuel > 0 && (tok == True || tok == False) ==>
      r == Ok(Advance(Emit(c, if tok == True then B.LoadTrue else B.LoadFalse)), 0)
    ensures fuel > 0 && IsBoolLiteral(tok) ==>
      r.Ok? && r.c.input == c.input && r.c.ptr == c.ptr + 1 && Code(r.c) == Code(c) + [LiteralInstr(tok)]
    decreases fuel, 3
  {
    if fuel == 0 {
      return NoFuel;
    }
    if tok.Symbol? {
      var (c1, loc) := ResolveLocal(c, tok.name);
      var e :- EmitGet(c1, loc);
      r := Ok(Advance(e.c), 0);
    } else if tok.Number? {
      r := Ok(Advance(LoadValue(c, B.Number(NumberValue(tok.lexeme)))), 0);
    } else if tok.String? {
      r := Ok(Advance(LoadValue(c, B.String(tok.contents))), 0);
    } else if tok == True {
      r := Ok(Advance(Emit(c, B.LoadTrue)), 0);
    } else if tok == False {
      r := Ok(Advance(Emit(c, B.LoadFalse)), 0);
    } else if tok == Nil {
      r := Ok(Emit(c, B.PushNil), 0);
    } else if tok == Array {
      r := ParseArray(m, c, fuel - 1);
    } else if tok == Dict {
      r := ParseDict(m, c, fuel - 1);
    } else if tok == Sub || tok == Not {
      var a :- ParseRval(m, Advance(c), Prec.Unary, fuel - 1);
      r := Ok(EmitWithLine(a.c, if tok == Sub then B.Negate else B.Not, GetLine(c)), 0);
    } else {
      // the remaining operand token is `(`
      var a :- ParseRval(m, Advance(c), Prec.Lowest, fuel - 1);
      r := Consume(m, a.c, RParen);
    }
  }

  /** An operator token of the infix loop: it has a level and is none of
      the tokens the loop handles first. */
  predicate IsInfixOperator(t: Token) {
    GetPrecedence(t) != Prec.NoLevel && t != Semicolon && t != LParen && t != LBracket && t != Dot
  }

  /** The `while let` loop of `parse_rval_expr`: calls, indexing and
      member access bind to the operand; an operator binds only if its
      level is above `prec`, and then takes a right operand parsed at its
      own level. The loop stops, emitting and consuming nothing, at the
      end, at `;`, at a token with no level, and at an operator whose
      level is not above `prec`: an operator of the same level ends a
      right operand, so operators of one level associate to the left. */
  method InfixLoop(m: Consuming, c: Ctx, prec: Prec, fuel: nat) returns (r: Res)
    requires Valid(c)
    ensures Keeps(c, r)
    ensures (fuel > 0 && Peek(c).Some? && IsInfixOperator(Peek(c).value)
             && Rank(GetPrecedence(Peek(c).value)) <= Rank(prec)) ==> r == Ok(c, 0)
    ensures (fuel > 0 && (Peek(c).None? || Peek(c) == Some(Semicolon)
             || GetPrecedence(Peek(c).value) == Prec.NoLevel)) ==> r == Ok(c, 0)
    ensures (fuel > 0 && Peek(c).Some? && IsInfixOperator(Peek(c).value)
             && Rank(GetPrecedence(Peek(c).value)) > Rank(prec) && r.Ok?) ==> r.c.ptr > c.ptr
    ensures ChainRest(c.input.tokens, c.ptr) && fuel >= 2 * (|c.input.tokens| - c.ptr) + 1 ==>
      r.Ok? && Code(r.c) == Code(c) + ClimbRest(c.input.tokens, c.ptr, prec).0 &&
      r.c.ptr == ClimbRest(c.input.tokens, c.ptr, prec).1
    decreases fuel, 0
  {
    if fuel == 0 {
      return NoFuel;
    }
    var chain := ChainRest(c.input.tokens, c.ptr) && fuel >= 2 * (|c.input.tokens| - c.ptr) + 1;
    if chain {
      ChainRestCases(c.input.tokens, c.ptr, prec);
    }
    match Peek(c)
    case None =>
      return Ok(c, 0);
    case Some(tk) =>
      if tk == Semicolon {
        return Ok(c, 0);
      } else if tk == LParen || tk == LBracket || tk == Dot {
        var a :- Suffix(m, c, tk, fuel - 1);
        r := InfixLoop(m, a.c, prec, fuel - 1);
      } else {
        var nprec := GetPrecedence(tk);
        if nprec == Prec.NoLevel || Rank(nprec) <= Rank(prec) {
          return Ok(c, 0);
        }
        r := InfixOperator(m, c, tk, prec, fuel - 1);
      }
  }

  /** In a chain, the right operand of an operator that binds starts a
      chain of its own, with fuel enough for `ParseRval`. */
  lemma RightOperandChains(c: Ctx, tk: Token, prec: Prec, fuel: nat)
    requires Valid(c) && Peek(c) == Some(tk) && GetPrecedence(tk) != Prec.NoLevel
    requires ChainRest(c.input.tokens, c.ptr) && fuel >= 2 * (|c.input.tokens| - c.ptr)
    ensures ChainFrom(Advance(c).input.tokens, Advance(c).ptr)
    ensures fuel >= 2 * (|Advance(c).input.tokens| - Advance(c).ptr) + 2
  {
    ChainRestCases(c.input.tokens, c.ptr, prec);
  }

  /** The chain step of `InfixOperator`, from what `ParseRval`,
      `EmitBinary` and `InfixLoop` promise: the right operand's climb,
      the operator's instruction and the rest of the loop make up the
      code `ClimbRest` gives. */
  lemma InfixOperatorChain(c: Ctx, tk: Token, prec: Prec, fuel: nat, a: Res, line: nat, e: Ctx, r: Res)
    requires Valid(c) && Peek(c) == Some(tk)
    requires GetPrecedence(tk) != Prec.NoLevel && Rank(GetPrecedence(tk)) > Rank(prec)
    requires ChainRest(c.input.tokens, c.ptr) && fuel >= 2 * (|c.input.tokens| - c.ptr)
    requires Keeps(Advance(c), a) && a.Ok?
    requires (ChainFrom(Advance(c).input.tokens, Advance(c).ptr) &&
              fuel >= 2 * (|Advance(c).input.tokens| - Advance(c).ptr) + 2) ==>
      a.Ok? && Code(a.c) == Code(Advance(c)) + Climb(Advance(c).input.tokens, Advance(c).ptr, GetPrecedence(tk)).0 &&
      a.c.ptr == Climb(Advance(c).input.tokens, Advance(c).ptr, GetPrecedence(tk)).1
    requires Valid(a.c) && e == EmitBinary(a.c, tk, line)
    requires Keeps(e, r)
    requires ChainRest(e.input.tokens, e.ptr) && fuel >= 2 * (|e.input.tokens| - e.ptr) + 1 ==>
      r.Ok? && Code(r.c) == Code(e) + ClimbRest(e.input.tokens, e.ptr, prec).0 &&
      r.c.ptr == ClimbRest(e.input.tokens, e.ptr, prec).1
    ensures r.Ok? && Code(r.c) == Code(c) + ClimbRest(c.input.tokens, c.ptr, prec).0
    ensures r.c.ptr == ClimbRest(c.input.tokens, c.ptr, prec).1
  {
    var ts := c.input.tokens;
    ChainRestCases(ts, c.ptr, prec);
    ClimbBounds(ts, c.ptr + 1, GetPrecedence(tk));
    InfixFollowsClimb(ts, c.ptr, prec, Code(c), Code(a.c), a.c.ptr, Code(e), Code(r.c), r.c.ptr);
  }

  /** One turn of the loop at an operator that binds: its right operand,
      parsed at the operator's own level, then its instruction, then the
      rest of the loop. */
  method InfixOperator(m: Consuming, c: Ctx, tk: Token, prec: Prec, fuel: nat) returns (r: Res)
    requires Valid(c) && Peek(c) == Some(tk)
    requires GetPrecedence(tk) != Prec.NoLevel && Rank(GetPrecedence(tk)) > Rank(prec)
    ensures Keeps(c, r) && (r.Ok? ==> r.c.ptr > c.ptr)
    ensures ChainRest(c.input.tokens, c.ptr) && fuel >= 2 * (|c.input.tokens| - c.ptr) ==>
      r.Ok? && Code(r.c) == Code(c) + ClimbRest(c.input.tokens, c.ptr, prec).0 &&
      r.c.ptr == ClimbRest(c.input.tokens, c.ptr, prec).1
    decreases fuel, 3
  {
    var chain := ChainRest(c.input.tokens, c.ptr) && fuel >= 2 * (|c.input.tokens| - c.ptr);
    if chain {
      RightOperandChains(c, tk, prec, fuel);
    }
    var a :- ParseRval(m, Advance(c), GetPrecedence(tk), fuel);
    var e := EmitBinary(a.c, tk, GetLine(c));
    r := InfixLoop(m, e, prec, fuel);
    if chain {
      InfixOperatorChain(c, tk, prec, fuel, a, GetLine(c), e, r);
    }
  }

  /** The instruction of an operator after its right operand, if it has
      one, with the operator's line. */
  function EmitBinary(c: Ctx, tk: Token, line: nat): (r: Ctx)
    requires Valid(c)
    ensures Valid(r) && Same(c, r) && r.ptr == c.ptr
    ensures BinaryInstr(tk).Some? ==> Code(r) == Code(c) + [BinaryInstr(tk).value] && Top(r).lines == Top(c).lines + [line]
    ensures BinaryInstr(tk).None? ==> r == c
  {
    match BinaryInstr(tk)
    case Some(i) => EmitWithLine(c, i, line)
    case None => c
  }

  /** A call `(args)`, an index `[expr]` or a member `.name` after an
      operand, with the line of its first token. */
  method Suffix(m: Consuming, c: Ctx, tk: Token, fuel: nat) returns (r: Res)
    requires Valid(c) && Peek(c) == Some(tk)
    ensures Keeps(c, r)
    ensures tk == Dot && fuel > 0 && r.Ok? ==> r.c.ptr == c.ptr + 2
    decreases fuel, 3
  {
    if fuel == 0 {
      return NoFuel;
    }
    if tk == LParen {
      var a :- ParseArgument(m, Advance(c), fuel - 1);
      var b :- Consume(m, a.c, RParen);
      r := Ok(EmitWithLine(b.c, B.Call(a.n), GetLine(c)), 0);
    } else if tk == LBracket {
      var a :- ParseRval(m, Advance(c), Prec.Lowest, fuel - 1);
      var b :- Consume(m, a.c, RBracket);
      r := Ok(EmitWithLine(b.c, B.GetCollection, GetLine(c)), 0);
    } else {
      var c1 := Advance(c);
      match Peek(c1)
      case None =>
        r := EofErr(c1);
      case Some(name) =>
        if name.Symbol? {
          r := Ok(EmitWithLine(Advance(LoadValue(c1, B.String(name.name))), B.GetCollection, GetLine(c)), 0);
        } else {
          r := ErrAt(c1, InvalidRvalExpr);
        }
    }
  }

  /** `parse_argument`: a possibly empty, comma-separated list of
      expressions before `)`, and its length. */
  method ParseArgument(m: Consuming, c: Ctx, fuel: nat) returns (r: Res)
    requires Valid(c)
    ensures Keeps(c, r)
    ensures fuel > 0 && Peek(c) == Some(RParen) ==> r == Ok(c, 0)
    ensures r.Ok? && Peek(c) != Some(RParen) ==> r.n >= 1
    decreases fuel, 2
  {
    if fuel == 0 {
      return NoFuel;
    }
    match Peek(c)
    case None =>
      r := EofErr(c);
    case Some(tok) =>
      if tok == RParen {
        r := Ok(c, 0);
      } else {
        r := ArgLoop(m, c, 0, fuel - 1);
      }
  }

  /** The loop of `parse_argument`, with `n` arguments already read. */
  method ArgLoop(m: Consuming, c: Ctx, n: nat, fuel: nat) returns (r: Res)
    requires Valid(c)
    ensures Keeps(c, r)
    ensures r.Ok? ==> r.n > n
    decreases fuel, 3
  {
    if fuel == 0 {
      return NoFuel;
    }
    var a :- ParseRval(m, c, Prec.Lowest, fuel - 1);
    match Peek(a.c)
    case None =>
      r := EofErr(a.c);
    case Some(tok) =>
      if tok == Comma {
        r := ArgLoop(m, Advance(a.c), n + 1, fuel - 1);
      } else if tok == RParen {
        r := Ok(a.c, n + 1);
      } else {
        r := ErrAt(a.c, IllegalArgumentList);
      }
  }

  /** `parse_array`: `Array ( arguments )`, emitting `InitArray`. As
      written it always fails at the `(`. */
  method ParseArray(m: Consuming, c: Ctx, fuel: nat) returns (r: Res)
    requires Valid(c)
    ensures Keeps(c, r)
    ensures m == AsWritten ==> r == if fuel == 0 then NoFuel else ErrAt(c, UnexpectedToken)
    decreases fuel, 4
  {
    if fuel == 0 {
      return NoFuel;
    }
    var a :- Consume(m, c, Array);
    var l :- LineAt(a.c);
    var b :- Consume(m, a.c, LParen);
    var n :- ParseArgument(m, b.c, fuel - 1);
    var d :- Consume(m, EmitWithLine(n.c, B.InitArray(n.n), l.n), RParen);
    r := Ok(d.c, 0);
  }

  /** `parse_dict`: `Dict ( "key" : value, ... )`, emitting `InitDict`.
      As written it always fails at the `(`. */
  method ParseDict(m: Consuming, c: Ctx, fuel: nat) returns (r: Res)
    requires Valid(c)
    ensures Keeps(c, r)
    ensures m == AsWritten ==> r == if fuel == 0 then NoFuel else ErrAt(c, UnexpectedToken)
    decreases fuel, 4
  {
    if fuel == 0 {
      return NoFuel;
    }
    var a :- Consume(m, c, Dict);
    var l :- LineAt(a.c);
    var b :- Consume(m, a.c, LParen);
    var d :- DictLoop(m, b.c, 0, l.n, fuel - 1);
    var e :- Consume(m, d.c, RParen);
    r := Ok(EmitWithLine(e.c, B.InitDict(d.n), l.n), 0);
  }

  /** The first token of an entry of `parse_dict`: a string key is
      loaded; a `)` closes an empty dictionary (and the loop goes on past
      it); anything else is an error. */
  function DictKey(c: Ctx, tok: Token, num: nat, line: nat): (r: Res)
    requires Valid(c)
    ensures Keeps(c, r)
    ensures r.Ok? <==> tok.String? || tok == RParen
    ensures tok.String? ==> r.c.ptr == c.ptr && Top(r.c).constants == Top(LoadValue(c, B.String(tok.contents))).constants
    ensures tok == RParen ==> r.c.ptr == c.ptr + 1 && Code(r.c) == Code(c) + [B.InitDict(num)]
  {
    if tok.String? then Ok(LoadValue(c, B.String(tok.contents)), 0)
    else if tok == RParen then Ok(EmitWithLine(Advance(c), B.InitDict(num), line), 0)
    else ErrAt(c, IllegalDict)
  }

  /** The loop of `parse_dict`, with `num` entries already read. */
  method DictLoop(m: Consuming, c: Ctx, num: nat, line: nat, fuel: nat) returns (r: Res)
    requires Valid(c)
    ensures Keeps(c, r)
    ensures r.Ok? ==> r.n > num
    decreases fuel, 3
  {
    if fuel == 0 {
      return NoFuel;
    }
    match Peek(c)
    case None =>
      r := EofErr(c);
    case Some(tok) =>
      var k :- DictKey(c, tok, num, line);
      var a :- Consume(m, Advance(k.c), Colon);
      var b :- ParseRval(m, a.c, Prec.Lowest, fuel - 1);
      match Peek(b.c)
      case None =>
        r := EofErr(b.c);
      case Some(next) =>
        if next == RParen {
          r := Ok(b.c, num + 1);
        } else {
          var d :- Consume(m, b.c, Comma);
          r := DictLoop(m, d.c, num + 1, line, fuel - 1);
        }
  }

  // ---------------------------------------------------------------------
  // Statements.
  // ---------------------------------------------------------------------

  /** `parse`: statements until the end of the input or a `}`. As
      written, a `{` opens scopes until the fuel runs out, and no
      statement is accepted at all: success means no statement was
      there. */
  method Parse(m: Consuming, c: Ctx, fuel: nat) returns (r: Res)
    requires Valid(c)
    ensures Keeps(c, r)
    ensures r.Ok? ==> Peek(r.c).None? || Peek(r.c) == Some(RBrace)
    ensures fuel > 0 && (Peek(c).None? || Peek(c) == Some(RBrace)) ==> r == Ok(c, 0)
    ensures m == AsWritten && Peek(c) == Some(LBrace) ==> r.NoFuel?
    ensures Peek(c) == Some(Semicolon) ==> !r.Ok?
    ensures m == AsWritten && r.Ok? ==> r.c == c
    decreases fuel, 0
  {
    if fuel == 0 {
      return NoFuel;
    }
    match Peek(c)
    case None =>
      return Ok(c, 0);
    case Some(tok) =>
      if tok == RBrace {
        return Ok(c, 0);
      }
      var s :- Statement(m, c, tok, fuel - 1);
      r := Parse(m, s.c, fuel - 1);
  }

  /** Whether a token starts an expression statement. */
  predicate StartsExpression(t: Token) {
    t.Symbol? || t == Array || t == Dict || t.Number? || t.String? || t == True || t == False
    || t == Not || t == Nil || t == Sub
  }

  /** Whether a token starts a statement of `parse`. */
  predicate StartsStatement(t: Token) {
    t == Var || t == LBrace || t == If || t == While || t == Function || t == Return || t == Except
    || StartsExpression(t)
  }

  /** One statement of `parse`, chosen by its first token. As written, a
      statement succeeds only as an expression statement, and then stays
      on its `;`. */
  method Statement(m: Consuming, c: Ctx, tok: Token, fuel: nat) returns (r: Res)
    requires Valid(c) && Peek(c) == Some(tok)
    ensures Keeps(c, r)
    ensures !StartsStatement(tok) ==> r == if fuel == 0 then NoFuel else ErrAt(c, UnexpectedToken)
    ensures m == AsWritten && tok == LBrace ==> r.NoFuel?
    ensures m == AsWritten && r.Ok? ==> Peek(r.c) == Some(Semicolon)
    decreases fuel, 1
  {
    if fuel == 0 {
      return NoFuel;
    }
    if tok.Var? {
      r := ParseDecl(m, c, fuel - 1);
    } else if tok.LBrace? {
      r := ParseBlock(m, c, fuel - 1);
    } else if tok.If? {
      r := ParseIf(m, c, fuel - 1);
    } else if tok.While? {
      r := ParseWhile(m, c, fuel - 1);
    } else if tok.Function? {
      r := ParseFuncDecl(m, c, fuel - 1);
    } else if tok.Return? {
      r := ParseReturn(m, c, fuel - 1);
    } else if tok.Except? {
      r := ParseExcept(m, c, fuel - 1);
    } else if StartsExpression(tok) {
      var a :- ParseRval(m, c, Prec.Lowest, fuel - 1);
      r := Consume(m, Emit(a.c, B.Pop), Semicolon);
    } else {
      r := ErrAt(c, UnexpectedToken);
    }
  }

  /** `parse_return`. As written it never succeeds: it stays on the
      `return` token, which is neither `;` nor the start of an operand. */
  method ParseReturn(m: Consuming, c: Ctx, fuel: nat) returns (r: Res)
    requires Valid(c)
    ensures Keeps(c, r)
    ensures m == AsWritten ==> !r.Ok?
    decreases fuel, 4
  {
    if fuel == 0 {
      return NoFuel;
    }
    var a :- Consume(m, c, Return);
    ghost var isw := m == AsWritten;
    assert isw ==> a.c == c && Peek(a.c) == Some(Return);
    match Peek(a.c)
    case None =>
      r := Ok(a.c, 0);
    case Some(tok) =>
      assert isw ==> tok.Return?;
      if tok.Semicolon? {
        r := Ok(Advance(Emit(a.c, B.Return)), 0);
      } else {
        assert isw ==> !StartsOperand(tok);
        var b :- ParseRval(m, a.c, Prec.Lowest, fuel - 1);
        assert isw && fuel > 1 ==> b.c == c;
        var e := EmitWithLine(b.c, B.Return, GetLine(a.c));
        assert isw ==> Peek(e) == Some(Return);
        r := Consume(m, e, Semicolon);
      }
  }

  /** `parse_except`. As written it never succeeds, for the same reason
      as `parse_return`. */
  method ParseExcept(m: Consuming, c: Ctx, fuel: nat) returns (r: Res)
    requires Valid(c)
    ensures Keeps(c, r)
    ensures m == AsWritten ==> !r.Ok?
    decreases fuel, 4
  {
    if fuel == 0 {
      return NoFuel;
    }
    var a :- Consume(m, c, Except);
    ghost var isw := m == AsWritten;
    assert isw ==> a.c == c && Peek(a.c) == Some(Except) && !StartsOperand(Except);
    var l :- LineAt(a.c);
    var b :- ParseRval(m, a.c, Prec.Lowest, fuel - 1);
    assert isw && fuel > 1 ==> b.c == c;
    var e := EmitWithLine(b.c, B.Except, l.n);
    assert isw ==> Peek(e) == Some(Except);
    r := Consume(m, e, Semicolon);
  }

  /** `parse_decl`: `var name;` or `var name = expr`. As written the
      token after `consume(Var)` is still `var`, not a name. */
  method ParseDecl(m: Consuming, c: Ctx, fuel: nat) returns (r: Res)
    requires Valid(c)
    ensures Keeps(c, r)
    ensures m == AsWritten && Peek(c) == Some(Var) ==> r == if fuel == 0 then NoFuel else Err(InvalidDecl)
    decreases fuel, 4
  {
    if fuel == 0 {
      return NoFuel;
    }
    var a :- Consume(m, c, Var);
    match Peek(a.c)
    case None =>
      r := EofErr(a.c);
    case Some(tok) =>
      if !tok.Symbol? {
        return ErrAt(a.c, InvalidDecl);
      }
      var c1 := Advance(a.c);
      if Peek(c1) == Some(Token.Equal) {
        var b :- ParseRval(m, Advance(c1), Prec.Lowest, fuel - 1);
        var d :- AddLocal(b.c, tok.name);
        r := Ok(Emit(Emit(d.c, B.SetLocal(Top(d.c).numLocals - 1)), B.Pop), 0);
      } else {
        var d :- AddLocal(c1, tok.name);
        r := Consume(m, d.c, Semicolon);
      }
  }

  /** The parameter loop of `parse_func_decl`, with `n` parameters
      already read: a name adds a local; a failed `consume(Comma)` ends
      the list if `)` follows. */
  function ParamLoop(m: Consuming, c: Ctx, n: nat): (r: Res)
    requires Valid(c)
    ensures Keeps(c, r)
    ensures r.Ok? ==> r.n >= n && Top(r.c).numLocals == Top(c).numLocals + (r.n - n)
    decreases |c.input.tokens| - c.ptr
  {
    match Peek(c)
    case None => EofErr(c)
    case Some(tok) =>
      if !tok.Symbol? then Ok(c, n)
      else
        var a :- AddLocal(Advance(c), tok.name);
        match Consume(m, a.c, Comma)
        case Ok(c2, _) => ParamLoop(m, c2, n + 1)
        case Err(_) =>
          // `consume` fails only before the end, so `peek_not_eof` succeeds
          if Peek(a.c) == Some(RParen) then Ok(a.c, n + 1) else ErrAt(a.c, ExpectRParen)
        case Panic => Panic
        case NoFuel => NoFuel
  }

  /** `parse_func_decl`: the name becomes a local, the parameters and
      body are compiled in a new scope, and the closed chunk, with its
      arity, is loaded and stored into the name's slot. As written the
      token after `consume(Function)` is still `func`, not a name. */
  method ParseFuncDecl(m: Consuming, c: Ctx, fuel: nat) returns (r: Res)
    requires Valid(c)
    ensures Keeps(c, r)
    ensures m == AsWritten && Peek(c) == Some(Function) ==> r == if fuel == 0 then NoFuel else Err(InvalidFunctionDecl)
    decreases fuel, 4
  {
    if fuel == 0 {
      return NoFuel;
    }
    var a :- Consume(m, c, Function);
    assert m == AsWritten && Peek(c) == Some(Function) ==> Peek(a.c) == Some(Function);
    match Peek(a.c)
    case None =>
      r := EofErr(a.c);
    case Some(tok) =>
      if !tok.Symbol? {
        return ErrAt(a.c, InvalidFunctionDecl);
      }
      var b :- AddLocal(Advance(a.c), tok.name);
      r := FunctionBody(m, b.c, fuel - 1);
  }

  /** The rest of `parse_func_decl` once the name is a local: the
      parameters and the body in a new scope, then the closed chunk
      stored into the name's slot. */
  method FunctionBody(m: Consuming, c: Ctx, fuel: nat) returns (r: Res)
    requires Valid(c)
    ensures Keeps(c, r)
    ensures m == AsWritten && r.Ok? ==> Peek(c) == Some(LParen) && Peek(r.c) == Some(LParen)
    decreases fuel, 5
  {
    var d :- Consume(m, OpenEnv(c), LParen);
    var ps :- ParamLoop(m, d.c, 0);
    var e :- Consume(m, ps.c, RParen);
    var f :- Consume(m, e.c, LBrace);
    var g :- Parse(m, f.c, fuel);
    var h :- Consume(m, g.c, RBrace);
    r := StoreFunction(h.c, ps.n);
  }

  /** The end of `parse_func_decl`: close the function's scope, set the
      arity of its chunk, load it and store it into the last local slot
      (`num_locals - 1` underflows, and panics, with no local). */
  function StoreFunction(c: Ctx, arity: nat): (r: Res)
    requires Valid(c) && c.depth > 0
    ensures r.Ok? ==> Valid(r.c) && r.c.input == c.input && r.c.depth + 1 == c.depth && r.c.ptr == c.ptr
    ensures r.Panic? <==> c.chunks[c.depth - 1].numLocals == 0
    ensures r.Ok? ==>
      var outer := c.chunks[c.depth - 1];
      var f := B.ChunkValue(Top(c).(bytecodes := Code(c) + [B.Return], lines := Top(c).lines + [0], parameterNum := arity));
      && outer.numLocals > 0
      && Top(r.c).constants == outer.constants + [f]
      && Code(r.c) == outer.bytecodes + [B.Load(|outer.constants|), B.SetLocal(outer.numLocals - 1), B.Pop]
  {
    var (c2, chunk) := CloseEnv(c).value;
    var c3 := LoadValue(c2, B.ChunkValue(chunk.(parameterNum := arity)));
    if Top(c3).numLocals == 0 then Panic
    else Ok(Emit(Emit(c3, B.SetLocal(Top(c3).numLocals - 1)), B.Pop), 0)
  }

  /** The epilogue of a `while` loop: the jump back to the condition. */
  function BackJump(c: Ctx, jumpback: nat): (r: Ctx)
    requires Valid(c)
    ensures Valid(r) && Same(c, r) && r.ptr == c.ptr
  {
    Emit(c, B.Jump(jumpback as int - |Code(c)| as int))
  }

  /** Patch the conditional jump at `patch` to land at the current end. */
  function PatchJumpIfNot(c: Ctx, patch: nat): (r: Res)
    requires Valid(c)
    ensures r.Ok? ==> Valid(r.c) && Same(c, r.c) && r.c.ptr == c.ptr
  {
    Patch(c, patch, B.JumpIfNot(|Code(c)| as int - patch as int))
  }

  /** Patch the jump at `patch` to land at the current end. */
  function PatchJump(c: Ctx, patch: nat): (r: Res)
    requires Valid(c)
    ensures r.Ok? ==> Valid(r.c) && Same(c, r.c) && r.c.ptr == c.ptr
  {
    Patch(c, patch, B.Jump(|Code(c)| as int - patch as int))
  }

  /** `parse_while`. As written it always fails at the `(`. */
  method ParseWhile(m: Consuming, c: Ctx, fuel: nat) returns (r: Res)
    requires Valid(c)
    ensures Keeps(c, r)
    ensures m == AsWritten ==> r == if fuel == 0 then NoFuel else ErrAt(c, UnexpectedToken)
    decreases fuel, 4
  {
    if fuel == 0 {
      return NoFuel;
    }
    var a :- Consume(m, c, While);
    var b :- Consume(m, a.c, LParen);
    var d :- ParseRval(m, b.c, Prec.Lowest, fuel - 1);
    var e :- Consume(m, Emit(d.c, B.JumpIfNot(0)), RParen);
    var f :- Consume(m, e.c, LBrace);
    var g :- Parse(m, f.c, fuel - 1);
    var h :- Consume(m, BackJump(g.c, |Code(b.c)|), RBrace);
    r := PatchJumpIfNot(h.c, |Code(d.c)|);
  }

  /** `parse_block`: the statements are compiled as a function of no
      arguments, which is loaded from the pool and called at once. As
      written the body starts on the same `{`, so blocks nest until the
      fuel runs out. */
  method ParseBlock(m: Consuming, c: Ctx, fuel: nat) returns (r: Res)
    requires Valid(c)
    ensures Keeps(c, r)
    ensures m == AsWritten && Peek(c) == Some(LBrace) ==> r.NoFuel?
    decreases fuel, 4
  {
    if fuel == 0 {
      return NoFuel;
    }
    var a :- Consume(m, c, LBrace);
    var g :- Parse(m, OpenEnv(a.c), fuel - 1);
    r := Consume(m, CallBlock(g.c), RBrace);
  }

  /** The end of `parse_block`: close the block's scope, and load and
      call its chunk, which goes to the end of the pool. */
  function CallBlock(c: Ctx): (r: Ctx)
    requires Valid(c) && c.depth > 0
    ensures Valid(r) && r.input == c.input && r.depth + 1 == c.depth && r.ptr == c.ptr
    ensures var outer := c.chunks[c.depth - 1];
      && Top(r).constants == outer.constants + [B.ChunkValue(Top(c).(bytecodes := Code(c) + [B.Return], lines := Top(c).lines + [0]))]
      && Code(r) == outer.bytecodes + [B.Load(|outer.constants|), B.Call(0)]
  {
    var (c2, res) := CloseEnv(c).value;
    var c3 := Emit(Emit(c2, B.Load(|Top(c2).constants|)), B.Call(0));
    AddAnonClosure(c3, res)
  }

  /** `parse_if`. As written it always fails at the `(`. An `if`
      without `else` has its `Jump` placeholder patched to move on to
      the code after the `if` (`IfWithoutElsePatched`); the source leaves
      it at `Jump(0)`, which the machine never gets past. */
  method ParseIf(m: Consuming, c: Ctx, fuel: nat) returns (r: Res)
    requires Valid(c)
    ensures Keeps(c, r)
    ensures m == AsWritten ==> r == if fuel == 0 then NoFuel else ErrAt(c, UnexpectedToken)
    decreases fuel, 4
  {
    if fuel == 0 {
      return NoFuel;
    }
    var a :- Consume(m, c, If);
    var b :- Consume(m, a.c, LParen);
    var d :- ParseRval(m, b.c, Prec.Lowest, fuel - 1);
    var e :- Consume(m, Emit(d.c, B.JumpIfNot(0)), RParen);
    var f :- Consume(m, e.c, LBrace);
    var g :- Parse(m, f.c, fuel - 1);
    var h :- Consume(m, Emit(g.c, B.Jump(0)), RBrace);
    var k :- PatchJumpIfNot(h.c, |Code(d.c)|);
    if Peek(k.c) == Some(Else) {
      var l :- Consume(m, Advance(k.c), LBrace);
      var n :- Parse(m, l.c, fuel - 1);
      var q :- Consume(m, n.c, RBrace);
      r := PatchJump(q.c, |Code(g.c)|);
    } else {
      r := PatchJump(k.c, |Code(g.c)|);
    }
  }

  /** `parse_prog`: a non-empty program must end with `;` or `}`. No
      error message is the text "EOF", so the branch that would then
      close the program with `Return` is never taken. As written, only a
      program with no statement is accepted. */
  method ParseProg(m: Consuming, c: Ctx, fuel: nat) returns (r: Res)
    requires Valid(c)
    ensures Keeps(c, r)
    ensures var ts := c.input.tokens;
      |ts| > 0 && ts[|ts| - 1] != Semicolon && ts[|ts| - 1] != RBrace ==> r == Err(IncompleteProgram)
    ensures fuel > 0 && |c.input.tokens| == 0 && c.ptr == 0 ==> r == Ok(c, 0)
    ensures m == AsWritten && r.Ok? ==> r.c == c && (Peek(c).None? || Peek(c) == Some(RBrace))
  {
    var ts := c.input.tokens;
    if |ts| > 0 && ts[|ts| - 1] != Semicolon && ts[|ts| - 1] != RBrace {
      return Err(IncompleteProgram);
    }
    r := Parse(m, c, fuel);
  }

  // ---------------------------------------------------------------------
  // Properties of the statements.
  // ---------------------------------------------------------------------

  /** Lemma: the patches of a `while` loop. With the condition code
      starting at `jumpback` and the `JumpIfNot` placeholder at `patch`,
      the back jump added at the end lands on `jumpback` (its offset is
      not positive), and the patched `JumpIfNot` lands just past the back
      jump; nothing else changes, and instructions and lines stay the
      same length. */
  lemma WhilePatchOffsets(c: Ctx, jumpback: nat, patch: nat)
    requires Valid(c) && jumpback <= patch < |Code(c)|
    ensures var e := BackJump(c, jumpback);
      var r := PatchJumpIfNot(e, patch);
      var len := |Code(c)|;
      && r.Ok?
      && |Code(r.c)| == len + 1 == |Top(r.c).lines|
      && Code(r.c)[len].Jump? && Code(r.c)[len].jump <= 0 && len + Code(r.c)[len].jump == jumpback
      && Code(r.c)[patch].JumpIfNot? && patch + Code(r.c)[patch].offset == len + 1
      && (forall i :: 0 <= i < len && i != patch ==> Code(r.c)[i] == Code(c)[i])
  {
  }

  /** Lemma: the patches of an `if`. With the `JumpIfNot` placeholder at
      `patch` and the `Jump` placeholder at `patch2` at the end of the
      then-branch, the patched `JumpIfNot` lands just past that `Jump`,
      where an else-branch starts; after an else-branch the `Jump` is
      patched to land at the end of it. The `JumpIfNot` patch alone
      leaves the `Jump(0)` as it is, as the source does when no `else`
      follows. */
  lemma IfPatchOffsets(c: Ctx, patch: nat, patch2: nat, elseCode: seq<B.Instr>)
    requires Valid(c) && patch < patch2 && patch2 + 1 == |Code(c)|
    ensures var r := PatchJumpIfNot(c, patch);
      && r.Ok?
      && Code(r.c)[patch] == B.JumpIfNot(patch2 + 1 - patch)
      && Code(r.c)[patch2] == Code(c)[patch2]
      && (forall i :: 0 <= i < |Code(c)| && i != patch ==> Code(r.c)[i] == Code(c)[i])
    ensures var r := PatchJumpIfNot(c, patch).c;
      var t := SetTop(r, Top(r).(bytecodes := Code(r) + elseCode, lines := Top(r).lines + seq(|elseCode|, _ => 0)));
      var s := PatchJump(t, patch2);
      && s.Ok?
      && Code(s.c)[patch2] == B.Jump(|elseCode| + 1)
      && patch2 + Code(s.c)[patch2].jump == |Code(t)|
  {
  }

  /** Lemma: the patch that ends an `if` without `else`. The `Jump`
      placeholder is the last instruction; patched, it moves one
      instruction on, to the first instruction after the `if`, where the
      source leaves it at `Jump(0)`, a jump to itself. */
  lemma IfWithoutElsePatched(c: Ctx, patch2: nat)
    requires Valid(c) && patch2 + 1 == |Code(c)| && Code(c)[patch2] == B.Jump(0)
    ensures var r := PatchJump(c, patch2);
      && r.Ok?
      && Code(r.c)[patch2] == B.Jump(1)
      && patch2 + Code(r.c)[patch2].jump == |Code(r.c)| == |Code(c)|
      && (forall i :: 0 <= i < |Code(c)| && i != patch2 ==> Code(r.c)[i] == Code(c)[i])
  {
  }
}
