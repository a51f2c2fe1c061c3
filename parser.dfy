/**
 * The recursive-descent parser over a positioned token stream.
 *
 * The functions at module level are the reference parser: each takes the tokens and the index of
 * the current token and returns what the corresponding parser routine produces together with the
 * index of the token that is current when it returns. The `Parser` class is the stateful parser;
 * each of its methods is proved to agree with the corresponding function.
 */
module Parser {
  import opened Wrappers
  import opened Text
  import opened Position
  import opened Expression
  import opened TokenStream

  /** What a parser routine returns, and the index of the token that is current afterwards. */
  datatype Parsed<T> = Parsed(value: T, next: nat)

  /** Tokens still to come from index `i`. */
  function Remaining(toks: seq<PToken>, i: nat): nat {
    if i < |toks| then |toks| - i else 0
  }

  predicate IsDelimiter(t: Token) {
    t.Semicolon? || t.LBrace?
  }

  /** The index of the first `;` or `{` at or after `k`, or past the end when there is none. */
  function FirstDelimiter(toks: seq<PToken>, k: nat): (j: nat)
    decreases |toks| - k
    ensures k <= j && (j <= |toks| || j == k)
    ensures forall m :: k <= m < j ==> m < |toks| && !IsDelimiter(toks[m].token)
    ensures j < |toks| ==> IsDelimiter(toks[j].token)
  {
    if k >= |toks| || IsDelimiter(toks[k].token) then k else FirstDelimiter(toks, k + 1)
  }

  /** `is_property`: scanning from the token after `i`, a `;` comes before any `{`. */
  predicate IsPropertyAt(toks: seq<PToken>, i: nat) {
    var j := FirstDelimiter(toks, i + 1);
    j < |toks| && toks[j].token.Semicolon?
  }

  /** `is_scope`: scanning from the token after `i`, a `{` comes before any `;`. */
  predicate IsScopeAt(toks: seq<PToken>, i: nat) {
    var j := FirstDelimiter(toks, i + 1);
    j < |toks| && toks[j].token.LBrace?
  }

  /** The index of the first token at or after `k` that is not a `Value`, or past the end. */
  function ValueRunEnd(toks: seq<PToken>, k: nat): (j: nat)
    decreases |toks| - k
    ensures k <= j && (j <= |toks| || j == k)
    ensures forall m :: k <= m < j ==> m < |toks| && toks[m].token.Value?
    ensures j < |toks| ==> !toks[j].token.Value?
  {
    if k < |toks| && toks[k].token.Value? then ValueRunEnd(toks, k + 1) else k
  }

  /** `next_not_value_token` from index `k`: the first token there or later that is not a `Value`. */
  function NextNotValue(toks: seq<PToken>, k: nat): (r: Option<Token>)
    ensures r.None? <==> forall m :: k <= m < |toks| ==> toks[m].token.Value?
    ensures r.Some? ==> !r.value.Value? && (exists j :: k <= j < |toks| && toks[j].token == r.value
                                             && forall m :: k <= m < j ==> toks[m].token.Value?)
  {
    var j := ValueRunEnd(toks, k);
    if j < |toks| then Some(toks[j].token) else None
  }

  /** The texts of the run of `Value` tokens starting at `k`. */
  function ValueTexts(toks: seq<PToken>, k: nat): (ts: seq<string>)
    decreases |toks| - k
  {
    if k < |toks| && toks[k].token.Value? then [toks[k].token.text] + ValueTexts(toks, k + 1) else []
  }

  /**
   * `parse_property_value` with `k` current: the texts of the `Value` run, each followed by a space,
   * trimmed. The run's first non-`Value` token is current afterwards.
   */
  function PropertyValueFrom(toks: seq<PToken>, k: nat): (r: Parsed<string>)
    ensures r.next == ValueRunEnd(toks, k)
  {
    Parsed(Trim(Spaced(ValueTexts(toks, k))), ValueRunEnd(toks, k))
  }

  /**
   * `parse_property` with `i` current: the key is the current `Value` token, the token after it is
   * skipped as the `:`, then the value follows. The property ends where the value stops; it is
   * dropped when the current token is not a `Value` or when the stream ends first.
   */
  function PropertyFrom(toks: seq<PToken>, i: nat): (r: Parsed<Option<Property>>)
    ensures r.next >= i
    ensures r.value.Some? ==> i < |toks| && toks[i].token.Value? && r.next < |toks|
  {
    if i >= |toks| then Parsed(None, i)
    else match toks[i].token
      case Value(key) =>
        var v := PropertyValueFrom(toks, i + 2);
        if v.next < |toks| then
          Parsed(Some(Property(Range(toks[i].range.from, toks[v.next].range.from), key, v.value)), v.next)
        else Parsed(None, v.next)
      case _ => Parsed(None, i)
  }

  /**
   * The selector loop of `parse_scope` from index `k`, with the selector text `value` accumulated so
   * far and the `selectors` already finished. It stops at `{` (finishing the last selector), at any
   * token other than `Value`, `,` and `:`, or at the end (discarding the unfinished selector).
   */
  function SelectorsFrom(toks: seq<PToken>, k: nat, value: string, selectors: seq<string>): (r: Parsed<seq<string>>)
    decreases |toks| - k
    ensures r.next >= k && (r.next <= |toks| || r.next == k)
    ensures forall m :: k <= m < r.next ==> m < |toks| && (toks[m].token.Value? || toks[m].token.Comma? || toks[m].token.Colon?)
    ensures r.next < |toks| ==> !(toks[r.next].token.Value? || toks[r.next].token.Comma? || toks[r.next].token.Colon?)
  {
    if k >= |toks| then Parsed(selectors, k)
    else match toks[k].token
      case Value(v) => SelectorsFrom(toks, k + 1, value + v + " ", selectors)
      case Comma => SelectorsFrom(toks, k + 1, "", selectors + [Trim(value)])
      case LBrace => Parsed(selectors + [Trim(value)], k)
      case Colon => SelectorsFrom(toks, k + 1, Trim(value) + ":", selectors)
      case _ => Parsed(selectors, k)
  }

  /** The scope that starts at `i` with the given selectors and parsed body, which ends at `body.next`. */
  function ScopeOf(toks: seq<PToken>, i: nat, selectors: seq<string>, body: Parsed<seq<Expr>>): (r: Parsed<Option<Scope>>)
    requires i < |toks|
    ensures r.next == body.next && (r.value.Some? <==> body.next < |toks|)
  {
    if body.next < |toks| then
      Parsed(Some(Scope(Range(toks[i].range.from, toks[body.next].range.from), selectors, body.value)), body.next)
    else Parsed(None, body.next)
  }

  /**
   * `parse_scope` with `i` current: the selectors, then one unconditional step past the token the
   * selector loop stopped at, then the children up to the closing `}`. The scope spans from its first
   * token to that `}`; it is dropped when the stream ends first.
   */
  function ScopeFrom(toks: seq<PToken>, i: nat): (r: Parsed<Option<Scope>>)
    decreases Remaining(toks, i), 0
    ensures r.next >= i
    ensures r.value.Some? ==> i < |toks| && r.next < |toks| && toks[r.next].token.RBrace?
  {
    if i >= |toks| then Parsed(None, i)
    else
      var sel := SelectorsFrom(toks, i, "", []);
      ScopeOf(toks, i, sel.value, ExpressionsFrom(toks, sel.next + 1))
  }

  /** One iteration of `parse_expression`'s loop before its `next()`: a property, a scope, or nothing. */
  function ConstructFrom(toks: seq<PToken>, i: nat): (r: Parsed<seq<Expr>>)
    decreases Remaining(toks, i), 1
    ensures r.next >= i && |r.value| <= 1
  {
    if IsPropertyAt(toks, i) then
      var p := PropertyFrom(toks, i);
      Parsed(if p.value.Some? then [PropertyExpr(p.value.value)] else [], p.next)
    else if IsScopeAt(toks, i) then
      var s := ScopeFrom(toks, i);
      Parsed(if s.value.Some? then [ScopeExpr(s.value.value)] else [], s.next)
    else Parsed([], i)
  }

  /**
   * `parse_expression` with `i` current: the constructs up to the end of the stream or an `}`, which
   * is left current and not consumed. Each construct is followed by one step.
   */
  function ExpressionsFrom(toks: seq<PToken>, i: nat): (r: Parsed<seq<Expr>>)
    decreases Remaining(toks, i), 2
    ensures r.next >= i
    ensures r.next >= |toks| || toks[r.next].token.RBrace?
    ensures i < |toks| && !toks[i].token.RBrace? ==> r.next > i
  {
    if i >= |toks| || toks[i].token.RBrace? then Parsed([], i)
    else
      var c := ConstructFrom(toks, i);
      var rest := ExpressionsFrom(toks, c.next + 1);
      Parsed(c.value + rest.value, rest.next)
  }

  /** `ScopeFrom` at a current token, in terms of its selector loop and its body. */
  lemma ScopeFromParts(toks: seq<PToken>, i: nat, sel: Parsed<seq<string>>, body: Parsed<seq<Expr>>)
    requires i < |toks|
    requires sel == SelectorsFrom(toks, i, "", []) && body == ExpressionsFrom(toks, sel.next + 1)
    ensures ScopeFrom(toks, i) == ScopeOf(toks, i, sel.value, body)
  {
  }

  lemma AppendAssoc<T>(a: seq<T>, b: seq<T>, c: seq<T>)
    ensures (a + b) + c == a + (b + c)
  {
  }

  /** One iteration of `parse_expression`'s loop: the construct at `i`, then the rest after one step. */
  lemma ExpressionsStep(toks: seq<PToken>, i: nat, added: seq<Expr>, j: nat)
    requires i < |toks| && !toks[i].token.RBrace?
    requires added == ConstructFrom(toks, i).value && j == ConstructFrom(toks, i).next
    ensures ExpressionsFrom(toks, i).value == added + ExpressionsFrom(toks, j + 1).value
    ensures ExpressionsFrom(toks, i).next == ExpressionsFrom(toks, j + 1).next
  {
  }

  class Parser {
    var lexer: TokenSource
    var curr: Option<PToken>
    var peek: Option<PToken>
    /** The tokens the lexer hands out. */
    ghost const input: seq<PToken>
    /** The index of `curr` in the input. */
    ghost var index: nat

    /** `curr` and `peek` are the tokens at `index` and the one after; the lexer is positioned past `peek`. */
    ghost predicate Valid()
      reads this
    {
      lexer.toks == input
      && lexer.position == Min(index + 2, |input|)
      && curr == At(input, index)
      && peek == At(input, index + 1)
    }

    ghost function Left(): nat
      reads this
    {
      Remaining(input, index)
    }

    /** `new`: loads the next two tokens of the lexer into `curr` and `peek`. */
    constructor (lexer: TokenSource)
      requires lexer.position <= |lexer.toks|
      ensures Valid() && input == lexer.toks && index == lexer.position
      ensures curr == At(input, lexer.position) && peek == At(input, lexer.position + 1)
    {
      var first := Pull(lexer);
      var second := Pull(first.1);
      this.lexer := second.1;
      curr := first.0;
      peek := second.0;
      input := lexer.toks;
      index := lexer.position;
    }

    /** `next`: the old `peek` becomes `curr`, and one fresh token is pulled into `peek`. */
    method Next()
      requires Valid()
      modifies this
      ensures Valid() && index == old(index) + 1
      ensures curr == old(peek) && peek == At(input, old(index) + 2)
    {
      curr := peek;
      var pulled := Pull(lexer);
      peek := pulled.0;
      lexer := pulled.1;
      index := index + 1;
    }

    /** `parse`: the top-level expressions. */
    method Parse() returns (exprs: seq<Expr>)
      requires Valid()
      modifies this
      ensures Valid()
      ensures exprs == ExpressionsFrom(input, old(index)).value && index == ExpressionsFrom(input, old(index)).next
    {
      exprs := ParseExpression();
    }

    method ParseExpression() returns (exprs: seq<Expr>)
      requires Valid()
      modifies this
      decreases Left(), 3
      ensures Valid()
      ensures exprs == ExpressionsFrom(input, old(index)).value && index == ExpressionsFrom(input, old(index)).next
      ensures curr.None? || curr.value.token.RBrace?
    {
      ghost var total := ExpressionsFrom(input, index);
      exprs := [];
      while curr.Some? && !curr.value.token.RBrace?
        invariant Valid()
        invariant exprs + ExpressionsFrom(input, index).value == total.value
        invariant ExpressionsFrom(input, index).next == total.next
        decreases Left()
      {
        ghost var rest := ExpressionsFrom(input, index).value;
        var added := ParseStep();
        AppendAssoc(exprs, added, ExpressionsFrom(input, index).value);
        exprs := exprs + added;
      }
      assert ExpressionsFrom(input, index) == Parsed([], index);
      assert exprs + [] == exprs;
    }

    /** One pass through `parse_expression`'s loop once `curr` is known not to be `}`: a construct, then `next()`. */
    method ParseStep() returns (added: seq<Expr>)
      requires Valid() && curr.Some? && !curr.value.token.RBrace?
      modifies this
      decreases Left(), 2
      ensures Valid() && index > old(index)
      ensures added == ConstructFrom(input, old(index)).value && index == ConstructFrom(input, old(index)).next + 1
      ensures ExpressionsFrom(input, old(index)).value == added + ExpressionsFrom(input, index).value
      ensures ExpressionsFrom(input, old(index)).next == ExpressionsFrom(input, index).next
    {
      ghost var before := index;
      added := ParseConstruct();
      ghost var j := index;
      Next();
      assert index == j + 1;
      ExpressionsStep(input, before, added, j);
    }

    /**
     * The body of `parse_expression`'s loop before its `next()`: a property if the lookahead says so,
     * else a scope if the lookahead says so, else nothing; a dropped construct adds nothing.
     */
    method ParseConstruct() returns (added: seq<Expr>)
      requires Valid()
      modifies this
      decreases Left(), 1
      ensures Valid()
      ensures added == ConstructFrom(input, old(index)).value && index == ConstructFrom(input, old(index)).next
    {
      added := [];
      var isProperty := IsProperty();
      if isProperty {
        var p := ParseProperty();
        if p.Some? {
          added := [PropertyExpr(p.value)];
        }
      } else {
        var isScope := IsScope();
        if isScope {
          var s := ParseScope();
          if s.Some? {
            added := [ScopeExpr(s.value)];
          }
        }
      }
    }

    method ParseScope() returns (scope: Option<Scope>)
      requires Valid()
      modifies this
      decreases Left(), 0
      ensures Valid()
      ensures scope == ScopeFrom(input, old(index)).value && index == ScopeFrom(input, old(index)).next
    {
      if curr.None? {
        return None;
      }
      ghost var i0 := index;
      var from := curr.value.range.from;
      var selectors := ParseSelectors();
      ghost var sel := Parsed(selectors, index);
      Next();
      var children := ParseExpression();
      ScopeFromParts(input, i0, sel, Parsed(children, index));
      if curr.None? {
        return None;
      }
      scope := Some(Scope(Range(from, curr.value.range.from), selectors, children));
    }

    /**
     * The selector loop of `parse_scope`: accumulates selector text until `{`, a token other than
     * `Value`, `,` and `:`, or the end, leaving the token it stopped at current.
     */
    method ParseSelectors() returns (selectors: seq<string>)
      requires Valid()
      modifies this
      ensures Valid()
      ensures Parsed(selectors, index) == SelectorsFrom(input, old(index), "", [])
    {
      ghost var i0 := index;
      var c := curr;
      selectors := [];
      var value := "";
      while c.Some?
        invariant Valid() && c == curr && i0 <= index
        invariant SelectorsFrom(input, index, value, selectors) == SelectorsFrom(input, i0, "", [])
        decreases Left()
      {
        match c.value.token {
          case Value(v) =>
            assert SelectorsFrom(input, index, value, selectors) == SelectorsFrom(input, index + 1, value + v + " ", selectors);
            value := value + v + " ";
          case Comma =>
            assert SelectorsFrom(input, index, value, selectors) == SelectorsFrom(input, index + 1, "", selectors + [Trim(value)]);
            selectors := selectors + [Trim(value)];
            value := "";
          case LBrace =>
            assert SelectorsFrom(input, index, value, selectors) == Parsed(selectors + [Trim(value)], index);
            selectors := selectors + [Trim(value)];
            break;
          case Colon =>
            assert SelectorsFrom(input, index, value, selectors) == SelectorsFrom(input, index + 1, Trim(value) + ":", selectors);
            value := Trim(value) + ":";
          case _ =>
            assert SelectorsFrom(input, index, value, selectors) == Parsed(selectors, index);
            break;
        }
        Next();
        c := curr;
      }
    }

    method ParseProperty() returns (property: Option<Property>)
      requires Valid()
      modifies this
      ensures Valid()
      ensures property == PropertyFrom(input, old(index)).value && index == PropertyFrom(input, old(index)).next
    {
      if curr.None? {
        return None;
      }
      var from := curr.value.range.from;
      match curr.value.token {
        case Value(key) =>
          Next();
          Next();
          var value := ParsePropertyValue();
          if curr.None? {
            return None;
          }
          property := Some(Property(Range(from, curr.value.range.from), key, value.value));
        case _ =>
          return None;
      }
    }

    /** Always succeeds: the `Option` it returns is never `None`. */
    method ParsePropertyValue() returns (value: Option<string>)
      requires Valid()
      modifies this
      ensures Valid()
      ensures value == Some(PropertyValueFrom(input, old(index)).value) && index == PropertyValueFrom(input, old(index)).next
    {
      ghost var i0 := index;
      var c := curr;
      var text := "";
      while c.Some?
        invariant Valid() && c == curr && i0 <= index
        invariant text + Spaced(ValueTexts(input, index)) == Spaced(ValueTexts(input, i0))
        invariant ValueRunEnd(input, index) == ValueRunEnd(input, i0)
        decreases Left()
      {
        match c.value.token {
          case Value(v) =>
            assert ValueTexts(input, index) == [v] + ValueTexts(input, index + 1);
            assert Spaced(ValueTexts(input, index)) == v + " " + Spaced(ValueTexts(input, index + 1));
            text := text + v + " ";
          case _ =>
            break;
        }
        Next();
        c := curr;
      }
      assert ValueTexts(input, index) == [] && ValueRunEnd(input, index) == index;
      assert text == Spaced(ValueTexts(input, i0));
      value := Some(Trim(text));
    }

    /** `is_property`: scans a copy of the lexer from `peek`; nothing of the parser changes. */
    method IsProperty() returns (b: bool)
      requires Valid()
      ensures b == IsPropertyAt(input, index)
    {
      var lex := lexer;
      var pt := peek;
      ghost var k := index + 1;
      while pt.Some?
        invariant lex.toks == input && pt == At(input, k) && lex.position == Min(k + 1, |input|)
        invariant index + 1 <= k && FirstDelimiter(input, k) == FirstDelimiter(input, index + 1)
        decreases |input| - k
      {
        match pt.value.token {
          case Semicolon => return true;
          case LBrace => return false;
          case _ =>
        }
        var pulled := Pull(lex);
        pt, lex := pulled.0, pulled.1;
        k := k + 1;
      }
      return false;
    }

    /** `is_scope`: the same scan as `IsProperty`, with the answers swapped. */
    method IsScope() returns (b: bool)
      requires Valid()
      ensures b == IsScopeAt(input, index)
    {
      var lex := lexer;
      var pt := peek;
      ghost var k := index + 1;
      while pt.Some?
        invariant lex.toks == input && pt == At(input, k) && lex.position == Min(k + 1, |input|)
        invariant index + 1 <= k && FirstDelimiter(input, k) == FirstDelimiter(input, index + 1)
        decreases |input| - k
      {
        match pt.value.token {
          case Semicolon => return false;
          case LBrace => return true;
          case _ =>
        }
        var pulled := Pull(lex);
        pt, lex := pulled.0, pulled.1;
        k := k + 1;
      }
      return false;
    }

    /** `next_not_value_token`: scans a copy of the lexer from `peek` for the first non-`Value` token. */
    method NextNotValueToken() returns (t: Option<Token>)
      requires Valid()
      ensures t == NextNotValue(input, index + 1)
    {
      var lex := lexer;
      var pt := peek;
      ghost var k := index + 1;
      while pt.Some?
        invariant lex.toks == input && pt == At(input, k) && lex.position == Min(k + 1, |input|)
        invariant index + 1 <= k && ValueRunEnd(input, k) == ValueRunEnd(input, index + 1)
        decreases |input| - k
      {
        match pt.value.token {
          case Value(_) =>
          case other => return Some(other);
        }
        var pulled := Pull(lex);
        pt, lex := pulled.0, pulled.1;
        k := k + 1;
      }
      return None;
    }
  }
}
