/**
 * The positioned tokens the parser consumes, and the token source it pulls them from.
 * The source is a value: copying it is how the parser clones its lexer for lookahead.
 */
module TokenStream {
  import opened Wrappers
  import opened Position

  datatype Token = Value(text: string) | Comma | LBrace | RBrace | Colon | Semicolon

  datatype PToken = PToken(token: Token, range: Range)

  /** A lexer over an already tokenized input: the tokens and the index of the next one to hand out. */
  datatype TokenSource = TokenSource(toks: seq<PToken>, position: nat)

  /** The token at index `i`, or none past the end. */
  function At(toks: seq<PToken>, i: nat): Option<PToken> {
    if i < |toks| then Some(toks[i]) else None
  }

  /** One call of the lexer's `token()`: the next token, and the source after it (unchanged at the end). */
  function Pull(src: TokenSource): (Option<PToken>, TokenSource) {
    if src.position < |src.toks| then (Some(src.toks[src.position]), src.(position := src.position + 1))
    else (None, src)
  }

  function Min(a: nat, b: nat): nat {
    if a <= b then a else b
  }
}
