/**
 * The token vocabulary of the sloth compiler (`src/compiler.rs`).
 * `Number`, `String` and `Symbol` carry their lexeme or contents: the
 * source keeps the number as an `f64` and interns the two strings, and
 * the model keeps the text. `Scanner.TokenizeWithPool` threads the pool
 * through a scan and shows that two tokens hold the same handle exactly
 * when they carry the same text.
 */
module Tokens {

  datatype Token =
    | Number(lexeme: string)
    | String(contents: string)
    | Symbol(name: string)
    | True | False | Dict | Stick | Nil
    | And | Or | Not | Add | Sub | LSlash | Mod
    | Percent | Star | Dot | Question
    | While | For | Break | Continue | Var | If | Else
    | LParen | RParen | LBracket | RBracket | LBrace | RBrace
    | Comma | LArrow | RArrow | Semicolon | Colon | Equal | EEqual
    | NotEqual | Le | Ge | Array | Function
    | Return | Except
    | PipeOp | AddAssign | SubAssign | MulAssign | DivAssign | ModAssign
    | Class | Super | This | Is
    | Dots | DotsEq | ThreeDots
    | InterplotBegin | InterplotEnd

  /** `Token::is_assign`: only `=`; the compound forms are excluded
      because the disjunct that would include them is commented out. */
  predicate IsAssign(t: Token) {
    t == Equal
  }

  /** `Token::is_op_assign`: the five compound assignment operators. */
  predicate IsOpAssign(t: Token) {
    t == AddAssign || t == SubAssign || t == MulAssign || t == DivAssign || t == ModAssign
  }

  /** The compound-assignment tokens, listed independently of the predicate. */
  const OpAssignTokens: set<Token> := {AddAssign, SubAssign, MulAssign, DivAssign, ModAssign}

  /** Lemma: `is_assign` holds of exactly one token and `is_op_assign` of
      exactly the five compound operators; no token is both, so a compound
      operator is never taken for a plain assignment. */
  lemma AssignKinds(t: Token)
    ensures IsAssign(t) <==> t == Equal
    ensures IsOpAssign(t) <==> t in OpAssignTokens
    ensures !(IsAssign(t) && IsOpAssign(t))
    ensures t in OpAssignTokens ==> !IsAssign(t)
  {
  }
}
