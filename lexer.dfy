/**
 * The character lexer: a position over a character buffer that skips whitespace and
 * emits one token per remaining character.
 */
module Lexer {
  import opened Wrappers
  import opened Text

  datatype Token = Selector(text: string) | Comma | LBrace | RBrace | Backslash

  /** The token `token()` emits for a non-whitespace character. */
  function Classify(c: char): Token {
    match c
    case ',' => Comma
    case '{' => LBrace
    case '}' => RBrace
    case '\\' => Backslash
    case _ => Selector([c])
  }

  /** The token `tokenSelector` emits for its argument: structural characters only. */
  function Structural(c: char): Option<Token> {
    match c
    case ',' => Some(Comma)
    case '{' => Some(LBrace)
    case '}' => Some(RBrace)
    case '\\' => Some(Backslash)
    case _ => None
  }

  /** The character a token stands for, as a string. */
  function TokenText(t: Token): string {
    match t
    case Selector(s) => s
    case Comma => ","
    case LBrace => "{"
    case RBrace => "}"
    case Backslash => "\\"
  }

  /** The tokens a run of `token()` calls from position `p` yields before the first `None`. */
  function TokensFrom(input: string, p: nat): seq<Token>
    decreases |input| - p
  {
    var k := SkipWhitespace(input, p);
    if k < |input| then [Classify(input[k])] + TokensFrom(input, k + 1) else []
  }

  function Concat(ts: seq<Token>): string {
    if ts == [] then "" else TokenText(ts[0]) + Concat(ts[1..])
  }

  /** The input with every whitespace character removed, order kept. */
  function RemoveWhitespace(s: string): string {
    if s == [] then "" else (if IsWhitespace(s[0]) then "" else [s[0]]) + RemoveWhitespace(s[1..])
  }

  lemma {:induction false} ClassifyText(c: char)
    ensures TokenText(Classify(c)) == [c]
  {
  }

  lemma {:induction false} RemoveWhitespaceFront(s: string)
    requires s != []
    ensures RemoveWhitespace(s) == (if IsWhitespace(s[0]) then "" else [s[0]]) + RemoveWhitespace(s[1..])
  {
  }

  lemma {:induction false} ConcatFront(t: Token, ts: seq<Token>)
    ensures Concat([t] + ts) == TokenText(t) + Concat(ts)
  {
    assert ([t] + ts)[1..] == ts;
  }

  /** Round trip: the texts of the tokens from `p` are the rest of the input without its whitespace. */
  lemma {:induction false} TokensFromRoundTrip(input: string, p: nat)
    requires p <= |input|
    ensures Concat(TokensFrom(input, p)) == RemoveWhitespace(input[p..])
    decreases |input| - p
  {
    if p < |input| {
      var c := input[p];
      assert input[p..][1..] == input[p + 1..];
      RemoveWhitespaceFront(input[p..]);
      TokensFromRoundTrip(input, p + 1);
      if IsWhitespace(c) {
        assert SkipWhitespace(input, p) == SkipWhitespace(input, p + 1);
        assert TokensFrom(input, p) == TokensFrom(input, p + 1);
      } else {
        assert SkipWhitespace(input, p) == p;
        assert TokensFrom(input, p) == [Classify(c)] + TokensFrom(input, p + 1);
        ConcatFront(Classify(c), TokensFrom(input, p + 1));
        ClassifyText(c);
      }
    } else {
      assert input[p..] == [];
    }
  }

  /** A full lexing run reproduces the input with all whitespace removed. */
  lemma LexRoundTrip(input: string)
    ensures Concat(TokensFrom(input, 0)) == RemoveWhitespace(input)
  {
    TokensFromRoundTrip(input, 0);
    assert input[0..] == input;
  }

  class Lexer {
    const input: string
    var position: nat

    constructor (input: string)
      ensures this.input == input && position == 0
    {
      this.input := input;
      position := 0;
    }

    /**
     * Skips whitespace, then emits the token of the first remaining character and moves past it,
     * or returns `None` when only whitespace remains.
     */
    method Token() returns (t: Option<Token>)
      modifies this
      ensures old(position) <= position
      ensures old(position) <= |input| ==> position <= |input|
      ensures var k := SkipWhitespace(input, old(position));
              if k < |input| then t == Some(Classify(input[k])) && position == k + 1
              else t == None && position == k
      ensures t.None? <==> TokensFrom(input, old(position)) == []
      ensures t.Some? ==> TokensFrom(input, old(position)) == [t.value] + TokensFrom(input, position)
    {
      ghost var p0 := position;
      while Curr().Some? && IsWhitespace(Curr().value)
        invariant p0 <= position <= SkipWhitespace(input, p0)
        invariant SkipWhitespace(input, position) == SkipWhitespace(input, p0)
        decreases |input| - position
      {
        Next();
      }
      var c := Curr();
      if c.None? {
        return None;
      }
      t := Some(Classify(c.value));
      Next();
    }

    /**
     * Skips whitespace, then classifies its argument (not the input character) and always moves one
     * position further, possibly to one past the end.
     */
    method TokenSelector(c: char) returns (t: Option<Token>)
      modifies this
      ensures t == Structural(c)
      ensures position == SkipWhitespace(input, old(position)) + 1
    {
      ghost var p0 := position;
      while Curr().Some? && IsWhitespace(Curr().value)
        invariant p0 <= position <= SkipWhitespace(input, p0)
        invariant SkipWhitespace(input, position) == SkipWhitespace(input, p0)
        decreases |input| - position
      {
        Next();
      }
      t := Structural(c);
      Next();
    }

    method Next()
      modifies this
      ensures position == old(position) + 1
      ensures Curr() == old(Peek())
    {
      position := position + 1;
    }

    /** The character at the position, `None` past the end. */
    function Curr(): (r: Option<char>)
      reads this
      ensures r.Some? <==> position < |input|
      ensures r.Some? ==> r.value == input[position]
    {
      if position < |input| then Some(input[position]) else None
    }

    /** The character after the position, `None` past the end. */
    function Peek(): (r: Option<char>)
      reads this
      ensures r.Some? <==> position + 1 < |input|
      ensures r.Some? ==> r.value == input[position + 1]
    {
      if position + 1 < |input| then Some(input[position + 1]) else None
    }

    /** ASCII digits and the decimal point. */
    static function IsNumber(c: char): (r: bool)
      ensures r <==> c in "0123456789."
    {
      ('0' <= c <= '9') || c == '.'
    }
  }

  /** `".a { }"` lexes to `.`, `a`, `{`, `}` and then nothing. */
  method LexDotAExample() returns (ts: seq<Option<Token>>)
    ensures ts == [Some(Selector(".")), Some(Selector("a")), Some(LBrace), Some(RBrace), None]
  {
    var lexer := new Lexer(".a { }");
    assert SkipWhitespace(".a { }", 0) == 0;
    assert SkipWhitespace(".a { }", 1) == 1;
    assert SkipWhitespace(".a { }", 2) == 3;
    assert SkipWhitespace(".a { }", 4) == 5;
    assert SkipWhitespace(".a { }", 6) == 6;
    var t1 := lexer.Token();
    var t2 := lexer.Token();
    var t3 := lexer.Token();
    var t4 := lexer.Token();
    var t5 := lexer.Token();
    ts := [t1, t2, t3, t4, t5];
  }
}
