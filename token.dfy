/** rply/token.py: the values the lexer produces. */
module Tokens {
  import opened Wrappers

  /** Where a piece of text starts: absolute index, line and column. Stored exactly as given. */
  datatype SourcePosition = SourcePosition(idx: int, lineno: int, colno: int)

  /**
   * A syntactically relevant piece of text: its kind (`name`), the text itself
   * (`value`) and, optionally, where it came from (`source_pos`, None by default).
   */
  datatype Token = Token(name: string, value: string, sourcePos: Option<SourcePosition> := None)
  {
    /** `gettokentype()`. */
    function GetTokenType(): string { name }

    /** `getsourcepos()`. */
    function GetSourcePos(): Option<SourcePosition> { sourcePos }

    /** `getstr()`. */
    function GetStr(): string { value }

    /**
     * `Token.__eq__(other)`: None stands for Python's `NotImplemented`, which
     * the method returns for an operand that is not a Token.
     */
    function DunderEq(other: Operand): (r: Option<bool>)
      ensures r.None? <==> !other.TokenOperand?
      ensures other.TokenOperand? ==> r == Some(name == other.token.name && value == other.token.value)
    {
      match other
      case TokenOperand(t) => Some(name == t.name && value == t.value)
      case NonToken => None
    }
  }

  /** The right operand of `==` / `!=` with a Token on the left: a Token, or some other Python object. */
  datatype Operand = TokenOperand(token: Token) | NonToken

  /**
   * `t == other`. When `__eq__` answers NotImplemented, the other operand is
   * not a Token either, and Python falls back to identity, which fails for two
   * distinct objects.
   */
  function Equals(t: Token, other: Operand): bool
  {
    match t.DunderEq(other)
    case Some(b) => b
    case None => false
  }

  /** `t != other`: Python's default `__ne__` negates `__eq__` and also falls back to identity. */
  function NotEquals(t: Token, other: Operand): bool
  {
    match t.DunderEq(other)
    case Some(b) => !b
    case None => true
  }

  /** Two tokens are equal exactly when kind and text agree; positions play no part. */
  lemma EqualsIgnoresPosition(t: Token, u: Token)
    ensures Equals(t, TokenOperand(u)) <==> t.name == u.name && t.value == u.value
    ensures Equals(t, TokenOperand(u)) <==> Equals(Token(t.name, t.value), TokenOperand(Token(u.name, u.value)))
    ensures NotEquals(t, TokenOperand(u)) <==> !Equals(t, TokenOperand(u))
  {
  }

  /** Token equality is an equivalence relation. */
  lemma EqualsIsEquivalence(t: Token, u: Token, w: Token)
    ensures Equals(t, TokenOperand(t))
    ensures Equals(t, TokenOperand(u)) ==> Equals(u, TokenOperand(t))
    ensures Equals(t, TokenOperand(u)) && Equals(u, TokenOperand(w)) ==> Equals(t, TokenOperand(w))
  {
  }

  /** A Token never equals a non-Token, and `!=` holds. */
  lemma NonTokenNeverEqual(t: Token)
    ensures !Equals(t, NonToken) && NotEquals(t, NonToken)
  {
  }

  /** The getters return the stored fields; the position defaults to None. */
  lemma GettersReturnFields(name: string, value: string, pos: SourcePosition)
    ensures Token(name, value, Some(pos)).GetTokenType() == name
    ensures Token(name, value, Some(pos)).GetStr() == value
    ensures Token(name, value, Some(pos)).GetSourcePos() == Some(pos)
    ensures Token(name, value).GetSourcePos() == None
  {
  }

  /** A source position keeps its three numbers exactly as given. */
  lemma SourcePositionStoresFields(idx: int, lineno: int, colno: int)
    ensures SourcePosition(idx, lineno, colno).idx == idx
    ensures SourcePosition(idx, lineno, colno).lineno == lineno
    ensures SourcePosition(idx, lineno, colno).colno == colno
  {
  }
}
