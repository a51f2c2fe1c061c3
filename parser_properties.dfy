/**
 * What the reference parser guarantees: the two lookaheads never agree, a property's key and value
 * come straight from its tokens, selector lists have one entry per comma-separated selector,
 * every produced tree is made of scopes and properties only, and ranges are well ordered when the
 * tokens are.
 */
module ParserProperties {
  import opened Wrappers
  import opened Text
  import opened Position
  import opened Expression
  import opened TokenStream
  import opened Parser

  // ---------------------------------------------------------------------------------------------
  // Lookahead

  /** `is_property` holds exactly when some `;` follows the current token with no `{` before it. */
  lemma IsPropertyMeaning(toks: seq<PToken>, i: nat)
    ensures IsPropertyAt(toks, i) <==>
      exists j :: i + 1 <= j < |toks| && toks[j].token.Semicolon?
                  && forall m :: i + 1 <= m < j ==> !toks[m].token.LBrace?
  {
    var d := FirstDelimiter(toks, i + 1);
    if IsPropertyAt(toks, i) {
      assert i + 1 <= d < |toks| && toks[d].token.Semicolon?;
    }
    if j :| i + 1 <= j < |toks| && toks[j].token.Semicolon? && forall m :: i + 1 <= m < j ==> !toks[m].token.LBrace? {
      assert IsDelimiter(toks[j].token);
      assert d <= j;
    }
  }

  /** `is_scope` holds exactly when some `{` follows the current token with no `;` before it. */
  lemma IsScopeMeaning(toks: seq<PToken>, i: nat)
    ensures IsScopeAt(toks, i) <==>
      exists j :: i + 1 <= j < |toks| && toks[j].token.LBrace?
                  && forall m :: i + 1 <= m < j ==> !toks[m].token.Semicolon?
  {
    var d := FirstDelimiter(toks, i + 1);
    if IsScopeAt(toks, i) {
      assert i + 1 <= d < |toks| && toks[d].token.LBrace?;
    }
    if j :| i + 1 <= j < |toks| && toks[j].token.LBrace? && forall m :: i + 1 <= m < j ==> !toks[m].token.Semicolon? {
      assert IsDelimiter(toks[j].token);
      assert d <= j;
    }
  }

  /**
   * The two lookaheads scan the same tokens and answer oppositely on the first delimiter: never
   * both, and neither exactly when no `;` or `{` follows the current token.
   */
  lemma LookaheadExclusive(toks: seq<PToken>, i: nat)
    ensures !(IsPropertyAt(toks, i) && IsScopeAt(toks, i))
    ensures !IsPropertyAt(toks, i) && !IsScopeAt(toks, i) <==>
      forall m :: i + 1 <= m < |toks| ==> !IsDelimiter(toks[m].token)
  {
    var d := FirstDelimiter(toks, i + 1);
    if forall m :: i + 1 <= m < |toks| ==> !IsDelimiter(toks[m].token) {
      assert d >= |toks|;
    }
  }

  // ---------------------------------------------------------------------------------------------
  // Properties

  /** The texts of a `Value` run are the texts of its tokens, one for each, in order. */
  lemma {:induction false} ValueTextsAt(toks: seq<PToken>, k: nat)
    requires k <= |toks|
    ensures |ValueTexts(toks, k)| == ValueRunEnd(toks, k) - k
    ensures forall n :: 0 <= n < |ValueTexts(toks, k)| ==> ValueTexts(toks, k)[n] == toks[k + n].token.text
    decreases |toks| - k
  {
    if k < |toks| && toks[k].token.Value? {
      ValueTextsAt(toks, k + 1);
      var rest := ValueTexts(toks, k + 1);
      assert ValueTexts(toks, k) == [toks[k].token.text] + rest;
      forall n | 0 <= n < |ValueTexts(toks, k)|
        ensures ValueTexts(toks, k)[n] == toks[k + n].token.text
      {
        if n > 0 {
          assert ValueTexts(toks, k)[n] == rest[n - 1];
        }
      }
    }
  }

  /**
   * When every value token's text is clean (as a lexer emits them), `parse_property_value` yields
   * the texts joined by single spaces.
   */
  lemma PropertyValueJoins(toks: seq<PToken>, k: nat)
    requires k <= |toks|
    requires forall m :: k <= m < ValueRunEnd(toks, k) ==> Clean(toks[m].token.text)
    ensures PropertyValueFrom(toks, k).value == JoinSpace(ValueTexts(toks, k))
  {
    ValueTextsAt(toks, k);
    var ts := ValueTexts(toks, k);
    forall n | 0 <= n < |ts|
      ensures Clean(ts[n])
    {
      assert ts[n] == toks[k + n].token.text;
    }
    TrimSpacedIsJoin(ts);
  }

  /**
   * `parse_property` at a `Value(key)` token: it succeeds exactly when the value run after the
   * skipped token ends before the stream does. The key is the token's text unchanged, the value the
   * run's texts joined by spaces, and the range runs from the key token to the token that ended the
   * run, which is current afterwards.
   */
  lemma PropertyStructure(toks: seq<PToken>, i: nat)
    requires i < |toks| && toks[i].token.Value?
    requires forall m :: i + 2 <= m < ValueRunEnd(toks, i + 2) ==> Clean(toks[m].token.text)
    ensures var r := PropertyFrom(toks, i);
            var end := ValueRunEnd(toks, i + 2);
            r.next == end
            && (r.value.Some? <==> end < |toks|)
            && (r.value.Some? ==>
                  !toks[end].token.Value?
                  && r.value.value.key == toks[i].token.text
                  && r.value.value.value == JoinSpace(ValueTexts(toks, i + 2))
                  && r.value.value.range == Range(toks[i].range.from, toks[end].range.from))
  {
    if i + 2 <= |toks| {
      PropertyValueJoins(toks, i + 2);
    }
  }

  /** At a declaration `key t v1 ... vn ;` with `t` not a `{`, the lookahead says property. */
  lemma DeclarationIsProperty(toks: seq<PToken>, i: nat)
    requires i + 2 <= |toks| && !toks[i + 1].token.LBrace?
    requires ValueRunEnd(toks, i + 2) < |toks| && toks[ValueRunEnd(toks, i + 2)].token.Semicolon?
    ensures IsPropertyAt(toks, i)
  {
    var e := ValueRunEnd(toks, i + 2);
    var d := FirstDelimiter(toks, i + 2);
    assert IsDelimiter(toks[e].token);
    assert d == e;
  }

  /**
   * A declaration `key t v1 ... vn ;` (with `t` not a `{`, typically the `:`) at `i` in a block
   * contributes exactly one property `prop`: the key's text, the value `parse_property_value` reads
   * from the token after `t`, and the range from the key to the `;`. The block goes on after the `;`.
   */
  lemma DeclarationStep(toks: seq<PToken>, i: nat, prop: Property)
    requires i + 2 <= |toks| && toks[i].token.Value? && !toks[i + 1].token.LBrace?
    requires ValueRunEnd(toks, i + 2) < |toks| && toks[ValueRunEnd(toks, i + 2)].token.Semicolon?
    requires prop == Property(Range(toks[i].range.from, toks[ValueRunEnd(toks, i + 2)].range.from),
                              toks[i].token.text, PropertyValueFrom(toks, i + 2).value)
    ensures ExpressionsFrom(toks, i).value == [PropertyExpr(prop)] + ExpressionsFrom(toks, ValueRunEnd(toks, i + 2) + 1).value
    ensures ExpressionsFrom(toks, i).next == ExpressionsFrom(toks, ValueRunEnd(toks, i + 2) + 1).next
  {
    DeclarationConstruct(toks, i, prop);
    var c := ConstructFrom(toks, i);
    ExpressionsStep(toks, i, c.value, c.next);
  }

  /** The loop pass at a declaration builds its property and stops on the `;`. */
  lemma DeclarationConstruct(toks: seq<PToken>, i: nat, prop: Property)
    requires i + 2 <= |toks| && toks[i].token.Value? && !toks[i + 1].token.LBrace?
    requires ValueRunEnd(toks, i + 2) < |toks| && toks[ValueRunEnd(toks, i + 2)].token.Semicolon?
    requires prop == Property(Range(toks[i].range.from, toks[ValueRunEnd(toks, i + 2)].range.from),
                              toks[i].token.text, PropertyValueFrom(toks, i + 2).value)
    ensures ConstructFrom(toks, i).value == [PropertyExpr(prop)]
    ensures ConstructFrom(toks, i).next == ValueRunEnd(toks, i + 2)
  {
    DeclarationIsProperty(toks, i);
    assert PropertyFrom(toks, i).value == Some(prop);
  }

  /** With value texts as a lexer emits them (clean), the declaration's value is its texts joined by spaces. */
  lemma DeclarationStepJoined(toks: seq<PToken>, i: nat, prop: Property)
    requires i + 2 <= |toks| && toks[i].token.Value? && !toks[i + 1].token.LBrace?
    requires ValueRunEnd(toks, i + 2) < |toks| && toks[ValueRunEnd(toks, i + 2)].token.Semicolon?
    requires forall m :: i + 2 <= m < ValueRunEnd(toks, i + 2) ==> Clean(toks[m].token.text)
    requires prop == Property(Range(toks[i].range.from, toks[ValueRunEnd(toks, i + 2)].range.from),
                              toks[i].token.text, JoinSpace(ValueTexts(toks, i + 2)))
    ensures ExpressionsFrom(toks, i).value == [PropertyExpr(prop)] + ExpressionsFrom(toks, ValueRunEnd(toks, i + 2) + 1).value
    ensures ExpressionsFrom(toks, i).next == ExpressionsFrom(toks, ValueRunEnd(toks, i + 2) + 1).next
  {
    PropertyValueJoins(toks, i + 2);
    DeclarationStep(toks, i, prop);
  }

  /** `parse_property` produces nothing, and consumes nothing, unless the current token is a `Value`. */
  lemma PropertyNeedsValue(toks: seq<PToken>, i: nat)
    requires i >= |toks| || !toks[i].token.Value?
    ensures PropertyFrom(toks, i) == Parsed(None, i)
  {
  }

  // ---------------------------------------------------------------------------------------------
  // Selectors

  /** The number of `,` tokens at indices `k` up to, not including, `j`. */
  function CommaCount(toks: seq<PToken>, k: nat, j: nat): (n: nat)
    decreases j - k
    ensures k <= j ==> n <= j - k
  {
    if k >= j || k >= |toks| then 0
    else (if toks[k].token.Comma? then 1 else 0) + CommaCount(toks, k + 1, j)
  }

  /**
   * The selector loop finishes one selector per `,` it passes, and one more when it stops at `{`;
   * stopping anywhere else discards the selector being built.
   */
  lemma {:induction false} SelectorsCount(toks: seq<PToken>, k: nat, value: string, selectors: seq<string>)
    ensures var r := SelectorsFrom(toks, k, value, selectors);
            |r.value| == |selectors| + CommaCount(toks, k, r.next)
                         + (if r.next < |toks| && toks[r.next].token.LBrace? then 1 else 0)
    ensures SelectorsFrom(toks, k, value, selectors).value[..|selectors|] == selectors
    decreases |toks| - k
  {
    var r := SelectorsFrom(toks, k, value, selectors);
    if k < |toks| {
      match toks[k].token
      case Value(v) =>
        SelectorsCount(toks, k + 1, value + v + " ", selectors);
      case Comma =>
        SelectorsCount(toks, k + 1, "", selectors + [Trim(value)]);
        assert (selectors + [Trim(value)])[..|selectors|] == selectors;
        assert r.value[..|selectors|] == r.value[..|selectors| + 1][..|selectors|];
      case LBrace =>
        assert r.value[..|selectors|] == selectors;
      case Colon =>
        SelectorsCount(toks, k + 1, Trim(value) + ":", selectors);
      case _ =>
    }
  }

  /** The selector loop runs through a run of `Value` tokens, appending each text and a space. */
  lemma {:induction false} SelectorsValueRun(toks: seq<PToken>, k: nat, value: string, selectors: seq<string>)
    requires k <= |toks|
    ensures SelectorsFrom(toks, k, value, selectors)
            == SelectorsFrom(toks, ValueRunEnd(toks, k), value + Spaced(ValueTexts(toks, k)), selectors)
    decreases |toks| - k
  {
    if k < |toks| && toks[k].token.Value? {
      var v := toks[k].token.text;
      var rest := Spaced(ValueTexts(toks, k + 1));
      assert SelectorsFrom(toks, k, value, selectors) == SelectorsFrom(toks, k + 1, value + v + " ", selectors);
      SelectorsValueRun(toks, k + 1, value + v + " ", selectors);
      assert ValueTexts(toks, k) == [v] + ValueTexts(toks, k + 1);
      assert Spaced(ValueTexts(toks, k)) == v + " " + rest;
      AppendAssoc(value + v, " ", rest);
      AppendAssoc(value, v, " " + rest);
      AppendAssoc(v, " ", rest);
    } else {
      assert ValueTexts(toks, k) == [];
      assert value + "" == value;
    }
  }

  /**
   * One selector group: a run of `Value` tokens with clean texts, read from a fresh selector. What
   * the token after the run does: `{` finishes the group as its texts joined by spaces and stops
   * there; `,` finishes it the same way and starts the next one; `:` keeps the joined text and
   * appends `:`; any other token, or the end, stops with the group discarded.
   */
  lemma SelectorGroup(toks: seq<PToken>, k: nat, selectors: seq<string>)
    requires k <= |toks|
    requires forall m :: k <= m < ValueRunEnd(toks, k) ==> Clean(toks[m].token.text)
    ensures ValueRunEnd(toks, k) < |toks| && toks[ValueRunEnd(toks, k)].token.LBrace? ==>
              SelectorsFrom(toks, k, "", selectors)
              == Parsed(selectors + [JoinSpace(ValueTexts(toks, k))], ValueRunEnd(toks, k))
    ensures ValueRunEnd(toks, k) < |toks| && toks[ValueRunEnd(toks, k)].token.Comma? ==>
              SelectorsFrom(toks, k, "", selectors)
              == SelectorsFrom(toks, ValueRunEnd(toks, k) + 1, "", selectors + [JoinSpace(ValueTexts(toks, k))])
    ensures ValueRunEnd(toks, k) < |toks| && toks[ValueRunEnd(toks, k)].token.Colon? ==>
              SelectorsFrom(toks, k, "", selectors)
              == SelectorsFrom(toks, ValueRunEnd(toks, k) + 1, JoinSpace(ValueTexts(toks, k)) + ":", selectors)
    ensures ValueRunEnd(toks, k) >= |toks|
            || toks[ValueRunEnd(toks, k)].token.Semicolon? || toks[ValueRunEnd(toks, k)].token.RBrace? ==>
              SelectorsFrom(toks, k, "", selectors) == Parsed(selectors, ValueRunEnd(toks, k))
  {
    SelectorsValueRun(toks, k, "", selectors);
    var ts := ValueTexts(toks, k);
    assert "" + Spaced(ts) == Spaced(ts);
    ValueTextsAt(toks, k);
    forall n | 0 <= n < |ts|
      ensures Clean(ts[n])
    {
      assert ts[n] == toks[k + n].token.text;
    }
    TrimSpacedIsJoin(ts);
  }

  /** Every selector the loop finishes is trimmed: no selector starts or ends with whitespace. */
  lemma {:induction false} SelectorsTrimmed(toks: seq<PToken>, k: nat, value: string, selectors: seq<string>)
    requires forall n :: 0 <= n < |selectors| ==> Trimmed(selectors[n])
    ensures forall n :: 0 <= n < |SelectorsFrom(toks, k, value, selectors).value| ==>
              Trimmed(SelectorsFrom(toks, k, value, selectors).value[n])
    decreases |toks| - k
  {
    if k < |toks| {
      TrimShape(value);
      match toks[k].token
      case Value(v) =>
        SelectorsTrimmed(toks, k + 1, value + v + " ", selectors);
        assert SelectorsFrom(toks, k, value, selectors) == SelectorsFrom(toks, k + 1, value + v + " ", selectors);
      case Comma =>
        var more := selectors + [Trim(value)];
        assert more[|selectors|] == Trim(value);
        assert forall n :: 0 <= n < |selectors| ==> more[n] == selectors[n];
        SelectorsTrimmed(toks, k + 1, "", more);
        assert SelectorsFrom(toks, k, value, selectors) == SelectorsFrom(toks, k + 1, "", more);
      case LBrace =>
      case Colon =>
        SelectorsTrimmed(toks, k + 1, Trim(value) + ":", selectors);
        assert SelectorsFrom(toks, k, value, selectors) == SelectorsFrom(toks, k + 1, Trim(value) + ":", selectors);
      case _ =>
    }
  }

  // ---------------------------------------------------------------------------------------------
  // Scopes

  /**
   * `parse_scope` at a current token: it is produced exactly when a token is current after the body;
   * its selectors are the selector loop's, its children the body's, and it spans from its first token
   * to the `}` that ends the body, which is current afterwards.
   */
  lemma ScopeStructure(toks: seq<PToken>, i: nat)
    requires i < |toks|
    ensures ScopeFrom(toks, i).next == ExpressionsFrom(toks, SelectorsFrom(toks, i, "", []).next + 1).next
    ensures ScopeFrom(toks, i).value.Some? <==> ScopeFrom(toks, i).next < |toks|
    ensures ScopeFrom(toks, i).value.Some? ==>
              ScopeFrom(toks, i).value.value.selectors == SelectorsFrom(toks, i, "", []).value
              && ScopeFrom(toks, i).value.value.children == ExpressionsFrom(toks, SelectorsFrom(toks, i, "", []).next + 1).value
              && ScopeFrom(toks, i).value.value.range == Range(toks[i].range.from, toks[ScopeFrom(toks, i).next].range.from)
              && toks[ScopeFrom(toks, i).next].token.RBrace?
  {
  }

  /**
   * A scope with one selector: a run of `Value` tokens with clean texts from `i` up to a `{`. The
   * scope, when produced, has that run's texts joined by spaces as its only selector and the block
   * after the `{` as its children.
   */
  lemma SingleSelectorScope(toks: seq<PToken>, i: nat)
    requires i < ValueRunEnd(toks, i) < |toks| && toks[ValueRunEnd(toks, i)].token.LBrace?
    requires forall m :: i <= m < ValueRunEnd(toks, i) ==> Clean(toks[m].token.text)
    ensures ScopeFrom(toks, i).next == ExpressionsFrom(toks, ValueRunEnd(toks, i) + 1).next
    ensures ScopeFrom(toks, i).value.Some? ==>
              ScopeFrom(toks, i).value.value.selectors == [JoinSpace(ValueTexts(toks, i))]
              && ScopeFrom(toks, i).value.value.children == ExpressionsFrom(toks, ValueRunEnd(toks, i) + 1).value
  {
    var e := ValueRunEnd(toks, i);
    var selector := JoinSpace(ValueTexts(toks, i));
    SelectorGroup(toks, i, []);
    assert [] + [selector] == [selector];
    assert SelectorsFrom(toks, i, "", []) == Parsed([selector], e);
    var body := ExpressionsFrom(toks, e + 1);
    ScopeFromParts(toks, i, Parsed([selector], e), body);
  }

  // ---------------------------------------------------------------------------------------------
  // Trees

  /** A node the parser can build: a property, or a scope whose children are such nodes. */
  predicate ParserNode(e: Expr) {
    match e
    case PropertyExpr(_) => true
    case ScopeExpr(s) => forall c :: c in s.children ==> ParserNode(c)
    case _ => false
  }

  /** The tokens' start positions never go backwards. */
  predicate Ordered(toks: seq<PToken>) {
    forall a, b :: 0 <= a <= b < |toks| ==> CursorLe(toks[a].range.from, toks[b].range.from)
  }

  /** Everything `parse_expression` returns is a scope or a property, down to the leaves; with ordered tokens every range is well ordered. */
  lemma {:induction false} ExpressionsSound(toks: seq<PToken>, i: nat)
    ensures forall e :: e in ExpressionsFrom(toks, i).value ==> ParserNode(e)
    ensures Ordered(toks) ==> forall e :: e in ExpressionsFrom(toks, i).value ==> WellRanged(e)
    decreases Remaining(toks, i), 2
  {
    if i < |toks| && !toks[i].token.RBrace? {
      var c := ConstructFrom(toks, i);
      ConstructSound(toks, i);
      ExpressionsSound(toks, c.next + 1);
    }
  }

  lemma {:induction false} ConstructSound(toks: seq<PToken>, i: nat)
    ensures forall e :: e in ConstructFrom(toks, i).value ==> ParserNode(e)
    ensures Ordered(toks) ==> forall e :: e in ConstructFrom(toks, i).value ==> WellRanged(e)
    decreases Remaining(toks, i), 1
  {
    if IsPropertyAt(toks, i) {
      var p := PropertyFrom(toks, i);
      if p.value.Some? {
        assert ConstructFrom(toks, i).value == [PropertyExpr(p.value.value)];
      }
    } else if IsScopeAt(toks, i) {
      var s := ScopeFrom(toks, i);
      ScopeSound(toks, i);
      if s.value.Some? {
        assert ConstructFrom(toks, i).value == [ScopeExpr(s.value.value)];
      }
    }
  }

  lemma {:induction false} ScopeSound(toks: seq<PToken>, i: nat)
    ensures ScopeFrom(toks, i).value.Some? ==> ParserNode(ScopeExpr(ScopeFrom(toks, i).value.value))
    ensures Ordered(toks) && ScopeFrom(toks, i).value.Some? ==> WellRanged(ScopeExpr(ScopeFrom(toks, i).value.value))
    decreases Remaining(toks, i), 0
  {
    if i < |toks| {
      var sel := SelectorsFrom(toks, i, "", []);
      var body := ExpressionsFrom(toks, sel.next + 1);
      ExpressionsSound(toks, sel.next + 1);
      ScopeFromParts(toks, i, sel, body);
    }
  }
}
