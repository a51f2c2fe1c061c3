/**
 * The parser's test cases, worked through in proofs for the reference parser and the stateful
 * parser. Tokens are placed at the rows and columns the test inputs give them; a token's own end is
 * not used by the parser and is set one column after its start.
 */
module ParserExamples {
  import opened Wrappers
  import opened Text
  import opened Position
  import opened Expression
  import opened TokenStream
  import opened Parser
  import opened ParserProperties

  function Tok(t: Token, row: nat, col: nat): PToken {
    PToken(t, Range(Cursor(row, col), Cursor(row, col + 1)))
  }

  function R(r0: nat, c0: nat, r1: nat, c1: nat): Range {
    Range(Cursor(r0, c0), Cursor(r1, c1))
  }

  /** `key: val;`-shaped tokens at `i` give the property with that key and value, ending at the fourth token. */
  lemma OneValueProperty(toks: seq<PToken>, i: nat, key: string, val: string)
    requires i + 3 < |toks| && toks[i].token == Value(key) && toks[i + 2].token == Value(val)
    requires !toks[i + 3].token.Value? && Clean(val)
    ensures PropertyFrom(toks, i) == Parsed(Some(Property(Range(toks[i].range.from, toks[i + 3].range.from), key, val)), i + 3)
  {
    assert ValueRunEnd(toks, i + 3) == i + 3;
    assert ValueRunEnd(toks, i + 2) == i + 3;
    assert ValueTexts(toks, i + 3) == [];
    assert ValueTexts(toks, i + 2) == [val];
    TrimCleanSpace(val);
    assert Spaced([val]) == val + " ";
  }

  /** A `Value` then `{` at `i` is a scope head with that one selector; the loop stops at the `{`. */
  lemma OneSelector(toks: seq<PToken>, i: nat, sel: string)
    requires i + 1 < |toks| && toks[i].token == Value(sel) && toks[i + 1].token.LBrace? && Clean(sel)
    ensures SelectorsFrom(toks, i, "", []) == Parsed([sel], i + 1)
  {
    TrimCleanSpace(sel);
    assert "" + sel + " " == sel + " ";
    assert SelectorsFrom(toks, i + 1, sel + " ", []) == Parsed([] + [sel], i + 1);
    assert [] + [sel] == [sel];
  }

  /** `a ,` at `i` finishes the selector `a` and starts the next one after the comma. */
  lemma SelectorThenComma(toks: seq<PToken>, i: nat, a: string, selectors: seq<string>)
    requires i + 1 < |toks| && toks[i].token == Value(a) && toks[i + 1].token.Comma? && Clean(a)
    ensures SelectorsFrom(toks, i, "", selectors) == SelectorsFrom(toks, i + 2, "", selectors + [a])
  {
    TrimCleanSpace(a);
    assert "" + a + " " == a + " ";
    assert SelectorsFrom(toks, i, "", selectors) == SelectorsFrom(toks, i + 1, a + " ", selectors);
  }

  /** `b {` at `i` finishes the selector `b` and stops at the `{`. */
  lemma LastSelector(toks: seq<PToken>, i: nat, b: string, selectors: seq<string>)
    requires i + 1 < |toks| && toks[i].token == Value(b) && toks[i + 1].token.LBrace? && Clean(b)
    ensures SelectorsFrom(toks, i, "", selectors) == Parsed(selectors + [b], i + 1)
  {
    TrimCleanSpace(b);
    assert "" + b + " " == b + " ";
    assert SelectorsFrom(toks, i, "", selectors) == SelectorsFrom(toks, i + 1, b + " ", selectors);
  }

  /** `a , b {` at `i` is a scope head with the two selectors `a` and `b`; the loop stops at the `{`. */
  lemma TwoSelectors(toks: seq<PToken>, i: nat, a: string, b: string)
    requires i + 3 < |toks| && toks[i].token == Value(a) && toks[i + 1].token.Comma?
    requires toks[i + 2].token == Value(b) && toks[i + 3].token.LBrace? && Clean(a) && Clean(b)
    ensures SelectorsFrom(toks, i, "", []) == Parsed([a, b], i + 3)
  {
    SelectorThenComma(toks, i, a, []);
    LastSelector(toks, i + 2, b, [] + [a]);
    assert [] + [a] + [b] == [a, b];
  }

  /** The nested test case `.a { color: red; .b { width: 100px; } }`. */
  const NESTED: seq<PToken> := [
    Tok(Value(".a"), 0, 0), Tok(LBrace, 0, 3),
    Tok(Value("color"), 0, 5), Tok(Colon, 0, 10), Tok(Value("red"), 0, 12), Tok(Semicolon, 0, 15),
    Tok(Value(".b"), 0, 17), Tok(LBrace, 0, 20),
    Tok(Value("width"), 0, 22), Tok(Colon, 0, 27), Tok(Value("100px"), 0, 29), Tok(Semicolon, 0, 34),
    Tok(RBrace, 0, 36), Tok(RBrace, 0, 38)]

  /** The nested test case's tokens, one by one. */
  predicate NestedShape(toks: seq<PToken>) {
    |toks| == 14
    && toks[0] == Tok(Value(".a"), 0, 0) && toks[1] == Tok(LBrace, 0, 3)
    && toks[2] == Tok(Value("color"), 0, 5) && toks[3] == Tok(Colon, 0, 10)
    && toks[4] == Tok(Value("red"), 0, 12) && toks[5] == Tok(Semicolon, 0, 15)
    && toks[6] == Tok(Value(".b"), 0, 17) && toks[7] == Tok(LBrace, 0, 20)
    && toks[8] == Tok(Value("width"), 0, 22) && toks[9] == Tok(Colon, 0, 27)
    && toks[10] == Tok(Value("100px"), 0, 29) && toks[11] == Tok(Semicolon, 0, 34)
    && toks[12] == Tok(RBrace, 0, 36) && toks[13] == Tok(RBrace, 0, 38)
  }

  lemma NestedHasShape()
    ensures NestedShape(NESTED)
  {
  }

  const WIDTH := PropertyExpr(Property(R(0, 22, 0, 34), "width", "100px"))
  const B := ScopeExpr(Scope(R(0, 17, 0, 36), [".b"], [WIDTH]))
  const COLOR := PropertyExpr(Property(R(0, 5, 0, 15), "color", "red"))
  const A := ScopeExpr(Scope(R(0, 0, 0, 38), [".a"], [COLOR, B]))

  lemma NestedWidth(toks: seq<PToken>)
    requires NestedShape(toks)
    ensures ExpressionsFrom(toks, 8) == Parsed([WIDTH], 12)
  {
    assert FirstDelimiter(toks, 9) == 11;
    OneValueProperty(toks, 8, "width", "100px");
    assert ConstructFrom(toks, 8) == Parsed([WIDTH], 11);
    assert [WIDTH] + ExpressionsFrom(toks, 12).value == [WIDTH];
  }

  lemma NestedB(toks: seq<PToken>)
    requires NestedShape(toks)
    ensures ExpressionsFrom(toks, 6) == Parsed([B], 13)
  {
    NestedWidth(toks);
    OneSelector(toks, 6, ".b");
    ScopeFromParts(toks, 6, Parsed([".b"], 7), Parsed([WIDTH], 12));
    assert FirstDelimiter(toks, 7) == 7;
    assert ConstructFrom(toks, 6) == Parsed([B], 12);
    assert [B] + ExpressionsFrom(toks, 13).value == [B];
  }

  lemma NestedColor(toks: seq<PToken>)
    requires NestedShape(toks)
    ensures ExpressionsFrom(toks, 2) == Parsed([COLOR, B], 13)
  {
    NestedB(toks);
    assert FirstDelimiter(toks, 3) == 5;
    OneValueProperty(toks, 2, "color", "red");
    assert ConstructFrom(toks, 2) == Parsed([COLOR], 5);
    assert [COLOR] + [B] == [COLOR, B];
  }

  /** The nested test case gives one scope holding a property and a scope that holds a property. */
  lemma NestedExample(toks: seq<PToken>)
    requires NestedShape(toks)
    ensures ExpressionsFrom(toks, 0) == Parsed([A], 14)
  {
    NestedColor(toks);
    OneSelector(toks, 0, ".a");
    ScopeFromParts(toks, 0, Parsed([".a"], 1), Parsed([COLOR, B], 13));
    assert FirstDelimiter(toks, 1) == 1;
    assert ConstructFrom(toks, 0) == Parsed([A], 13);
    assert [A] + ExpressionsFrom(toks, 14).value == [A];
  }

  /** The stateful parser, started on the nested test case, returns the expected tree. */
  method ParseNestedExample() returns (exprs: seq<Expr>)
    ensures exprs == [A]
  {
    var parser := new Parser(TokenSource(NESTED, 0));
    exprs := parser.Parse();
    NestedHasShape();
    NestedExample(NESTED);
  }

  // ---------------------------------------------------------------------------------------------
  // `color: red;\npadding: 1px 1rem; margin: 0 1px 2px;`

  predicate PropertiesShape(toks: seq<PToken>) {
    |toks| == 15
    && toks[0] == Tok(Value("color"), 0, 0) && toks[1] == Tok(Colon, 0, 5)
    && toks[2] == Tok(Value("red"), 0, 7) && toks[3] == Tok(Semicolon, 0, 10)
    && toks[4] == Tok(Value("padding"), 1, 0) && toks[5] == Tok(Colon, 1, 7)
    && toks[6] == Tok(Value("1px"), 1, 9) && toks[7] == Tok(Value("1rem"), 1, 13)
    && toks[8] == Tok(Semicolon, 1, 17)
    && toks[9] == Tok(Value("margin"), 1, 19) && toks[10] == Tok(Colon, 1, 25)
    && toks[11] == Tok(Value("0"), 1, 27) && toks[12] == Tok(Value("1px"), 1, 29)
    && toks[13] == Tok(Value("2px"), 1, 33) && toks[14] == Tok(Semicolon, 1, 36)
  }

  const PROPERTIES: seq<PToken> := [
    Tok(Value("color"), 0, 0), Tok(Colon, 0, 5), Tok(Value("red"), 0, 7), Tok(Semicolon, 0, 10),
    Tok(Value("padding"), 1, 0), Tok(Colon, 1, 7), Tok(Value("1px"), 1, 9), Tok(Value("1rem"), 1, 13),
    Tok(Semicolon, 1, 17),
    Tok(Value("margin"), 1, 19), Tok(Colon, 1, 25), Tok(Value("0"), 1, 27), Tok(Value("1px"), 1, 29),
    Tok(Value("2px"), 1, 33), Tok(Semicolon, 1, 36)]

  lemma PropertiesHasShape()
    ensures PropertiesShape(PROPERTIES)
  {
  }

  const PROP_COLOR := PropertyExpr(Property(R(0, 0, 0, 10), "color", "red"))
  const PROP_PADDING := PropertyExpr(Property(R(1, 0, 1, 17), "padding", "1px 1rem"))
  const PROP_MARGIN := PropertyExpr(Property(R(1, 19, 1, 36), "margin", "0 1px 2px"))

  lemma MarginProperty(toks: seq<PToken>)
    requires PropertiesShape(toks)
    ensures PropertyFrom(toks, 9) == Parsed(Some(PROP_MARGIN.asProperty), 14)
  {
    assert ValueRunEnd(toks, 13) == 14;
    assert ValueRunEnd(toks, 11) == 14;
    assert ValueTexts(toks, 13) == ["2px"];
    assert ValueTexts(toks, 12) == ["1px", "2px"];
    assert ValueTexts(toks, 11) == ["0", "1px", "2px"];
    assert ["0", "1px", "2px"][1..] == ["1px", "2px"] && ["1px", "2px"][1..] == ["2px"];
    assert JoinSpace(["1px", "2px"]) == "1px 2px";
    assert JoinSpace(["0", "1px", "2px"]) == "0 1px 2px";
    PropertyStructure(toks, 9);
  }

  lemma PaddingProperty(toks: seq<PToken>)
    requires PropertiesShape(toks)
    ensures PropertyFrom(toks, 4) == Parsed(Some(PROP_PADDING.asProperty), 8)
  {
    assert ValueRunEnd(toks, 6) == 8;
    assert ValueTexts(toks, 7) == ["1rem"];
    assert ValueTexts(toks, 6) == ["1px", "1rem"];
    assert ["1px", "1rem"][1..] == ["1rem"];
    assert JoinSpace(["1px", "1rem"]) == "1px 1rem";
    PropertyStructure(toks, 4);
  }

  lemma PropertiesMargin(toks: seq<PToken>)
    requires PropertiesShape(toks)
    ensures ExpressionsFrom(toks, 9) == Parsed([PROP_MARGIN], 15)
  {
    MarginProperty(toks);
    assert FirstDelimiter(toks, 12) == 14;
    assert FirstDelimiter(toks, 10) == 14;
    assert ConstructFrom(toks, 9) == Parsed([PROP_MARGIN], 14);
    assert [PROP_MARGIN] + ExpressionsFrom(toks, 15).value == [PROP_MARGIN];
  }

  lemma PropertiesPadding(toks: seq<PToken>)
    requires PropertiesShape(toks)
    ensures ExpressionsFrom(toks, 4) == Parsed([PROP_PADDING, PROP_MARGIN], 15)
  {
    PropertiesMargin(toks);
    PaddingProperty(toks);
    assert FirstDelimiter(toks, 5) == 8;
    assert ConstructFrom(toks, 4) == Parsed([PROP_PADDING], 8);
    assert [PROP_PADDING] + [PROP_MARGIN] == [PROP_PADDING, PROP_MARGIN];
  }

  /** Three properties in a row, one spread over two values and one over three. */
  lemma PropertiesExample(toks: seq<PToken>)
    requires PropertiesShape(toks)
    ensures ExpressionsFrom(toks, 0) == Parsed([PROP_COLOR, PROP_PADDING, PROP_MARGIN], 15)
  {
    PropertiesPadding(toks);
    assert FirstDelimiter(toks, 1) == 3;
    OneValueProperty(toks, 0, "color", "red");
    assert ConstructFrom(toks, 0) == Parsed([PROP_COLOR], 3);
    assert [PROP_COLOR] + [PROP_PADDING, PROP_MARGIN] == [PROP_COLOR, PROP_PADDING, PROP_MARGIN];
  }

  /**
   * The stateful parser, with `padding` current, reads the property; the two value texts are joined
   * with one space and the `;` is current afterwards.
   */
  method ParsePaddingExample() returns (p: Option<Property>, next: Option<PToken>)
    ensures p == Some(Property(R(1, 0, 1, 17), "padding", "1px 1rem"))
    ensures next == Some(Tok(Semicolon, 1, 17))
  {
    var parser := new Parser(TokenSource(PROPERTIES, 4));
    p := parser.ParseProperty();
    next := parser.curr;
    PropertiesHasShape();
    PaddingProperty(PROPERTIES);
  }

  // ---------------------------------------------------------------------------------------------
  // `.a .b {}\n.c, .d {}`

  predicate SelectorListShape(toks: seq<PToken>) {
    |toks| == 9
    && toks[0] == Tok(Value(".a"), 0, 0) && toks[1] == Tok(Value(".b"), 0, 3)
    && toks[2] == Tok(LBrace, 0, 6) && toks[3] == Tok(RBrace, 0, 7)
    && toks[4] == Tok(Value(".c"), 1, 0) && toks[5] == Tok(Comma, 1, 2)
    && toks[6] == Tok(Value(".d"), 1, 4) && toks[7] == Tok(LBrace, 1, 7) && toks[8] == Tok(RBrace, 1, 8)
  }

  const SCOPE_AB := ScopeExpr(Scope(R(0, 0, 0, 7), [".a .b"], []))
  const SCOPE_CD := ScopeExpr(Scope(R(1, 0, 1, 8), [".c", ".d"], []))

  lemma SelectorListCD(toks: seq<PToken>)
    requires SelectorListShape(toks)
    ensures ExpressionsFrom(toks, 4) == Parsed([SCOPE_CD], 9)
  {
    TwoSelectors(toks, 4, ".c", ".d");
    assert ExpressionsFrom(toks, 8) == Parsed([], 8);
    ScopeFromParts(toks, 4, Parsed([".c", ".d"], 7), Parsed([], 8));
    assert FirstDelimiter(toks, 5) == 7;
    assert ConstructFrom(toks, 4) == Parsed([SCOPE_CD], 8);
    assert [SCOPE_CD] + ExpressionsFrom(toks, 9).value == [SCOPE_CD];
  }

  /** A descendant selector kept as one text, and a comma-separated list split into two. */
  lemma SelectorListExample(toks: seq<PToken>)
    requires SelectorListShape(toks)
    ensures ExpressionsFrom(toks, 0) == Parsed([SCOPE_AB, SCOPE_CD], 9)
  {
    SelectorListCD(toks);
    TrimCleanSpace(".a .b");
    assert [] + [".a .b"] == [".a .b"];
    assert SelectorsFrom(toks, 2, ".a .b" + " ", []) == Parsed([".a .b"], 2);
    assert ".a" + " " + ".b" + " " == ".a .b" + " ";
    assert SelectorsFrom(toks, 1, ".a" + " ", []) == Parsed([".a .b"], 2);
    assert "" + ".a" + " " == ".a" + " ";
    assert SelectorsFrom(toks, 0, "", []) == Parsed([".a .b"], 2);
    assert ExpressionsFrom(toks, 3) == Parsed([], 3);
    ScopeFromParts(toks, 0, Parsed([".a .b"], 2), Parsed([], 3));
    assert FirstDelimiter(toks, 1) == 2;
    assert ConstructFrom(toks, 0) == Parsed([SCOPE_AB], 3);
    assert [SCOPE_AB] + [SCOPE_CD] == [SCOPE_AB, SCOPE_CD];
  }

  // ---------------------------------------------------------------------------------------------
  // `.a:b {} .cc::ff {}`

  predicate PseudoShape(toks: seq<PToken>) {
    |toks| == 11
    && toks[0] == Tok(Value(".a"), 0, 0) && toks[1] == Tok(Colon, 0, 2) && toks[2] == Tok(Value("b"), 0, 3)
    && toks[3] == Tok(LBrace, 0, 5) && toks[4] == Tok(RBrace, 0, 6)
    && toks[5] == Tok(Value(".cc"), 0, 8) && toks[6] == Tok(Colon, 0, 11) && toks[7] == Tok(Colon, 0, 12)
    && toks[8] == Tok(Value("ff"), 0, 13) && toks[9] == Tok(LBrace, 0, 16) && toks[10] == Tok(RBrace, 0, 17)
  }

  const SCOPE_AB_PSEUDO := ScopeExpr(Scope(R(0, 0, 0, 6), [".a:b"], []))
  const SCOPE_CCFF := ScopeExpr(Scope(R(0, 8, 0, 17), [".cc::ff"], []))

  lemma PseudoCCFF(toks: seq<PToken>)
    requires PseudoShape(toks)
    ensures ExpressionsFrom(toks, 5) == Parsed([SCOPE_CCFF], 11)
  {
    TrimCleanSpace(".cc");
    TrimOfTrimmed(".cc:");
    TrimCleanSpace(".cc::ff");
    assert [] + [".cc::ff"] == [".cc::ff"];
    assert SelectorsFrom(toks, 9, ".cc::ff" + " ", []) == Parsed([".cc::ff"], 9);
    assert ".cc::" + "ff" + " " == ".cc::ff" + " ";
    assert SelectorsFrom(toks, 8, ".cc::", []) == Parsed([".cc::ff"], 9);
    assert ".cc:" + ":" == ".cc::";
    assert SelectorsFrom(toks, 7, ".cc:", []) == Parsed([".cc::ff"], 9);
    assert ".cc" + ":" == ".cc:";
    assert SelectorsFrom(toks, 6, ".cc" + " ", []) == Parsed([".cc::ff"], 9);
    assert "" + ".cc" + " " == ".cc" + " ";
    assert SelectorsFrom(toks, 5, "", []) == Parsed([".cc::ff"], 9);
    assert ExpressionsFrom(toks, 10) == Parsed([], 10);
    ScopeFromParts(toks, 5, Parsed([".cc::ff"], 9), Parsed([], 10));
    assert FirstDelimiter(toks, 6) == 9;
    assert ConstructFrom(toks, 5) == Parsed([SCOPE_CCFF], 10);
    assert [SCOPE_CCFF] + ExpressionsFrom(toks, 11).value == [SCOPE_CCFF];
  }

  /** A `:` glues the trimmed text before it to what follows: `.a:b` and `.cc::ff` stay whole. */
  lemma PseudoExample(toks: seq<PToken>)
    requires PseudoShape(toks)
    ensures ExpressionsFrom(toks, 0) == Parsed([SCOPE_AB_PSEUDO, SCOPE_CCFF], 11)
  {
    PseudoCCFF(toks);
    TrimCleanSpace(".a");
    TrimCleanSpace(".a:b");
    assert [] + [".a:b"] == [".a:b"];
    assert SelectorsFrom(toks, 3, ".a:b" + " ", []) == Parsed([".a:b"], 3);
    assert ".a:" + "b" + " " == ".a:b" + " ";
    assert SelectorsFrom(toks, 2, ".a:", []) == Parsed([".a:b"], 3);
    assert ".a" + ":" == ".a:";
    assert SelectorsFrom(toks, 1, ".a" + " ", []) == Parsed([".a:b"], 3);
    assert "" + ".a" + " " == ".a" + " ";
    assert SelectorsFrom(toks, 0, "", []) == Parsed([".a:b"], 3);
    assert ExpressionsFrom(toks, 4) == Parsed([], 4);
    ScopeFromParts(toks, 0, Parsed([".a:b"], 3), Parsed([], 4));
    assert FirstDelimiter(toks, 1) == 3;
    assert ConstructFrom(toks, 0) == Parsed([SCOPE_AB_PSEUDO], 4);
    assert [SCOPE_AB_PSEUDO] + [SCOPE_CCFF] == [SCOPE_AB_PSEUDO, SCOPE_CCFF];
  }

  // ---------------------------------------------------------------------------------------------
  // `.a .b { .c, .d {} #e {} }`

  predicate NestedSelectorsShape(toks: seq<PToken>) {
    |toks| == 12
    && toks[0] == Tok(Value(".a"), 0, 0) && toks[1] == Tok(Value(".b"), 0, 3) && toks[2] == Tok(LBrace, 0, 6)
    && toks[3] == Tok(Value(".c"), 0, 8) && toks[4] == Tok(Comma, 0, 10) && toks[5] == Tok(Value(".d"), 0, 12)
    && toks[6] == Tok(LBrace, 0, 15) && toks[7] == Tok(RBrace, 0, 16)
    && toks[8] == Tok(Value("#e"), 0, 18) && toks[9] == Tok(LBrace, 0, 21) && toks[10] == Tok(RBrace, 0, 22)
    && toks[11] == Tok(RBrace, 0, 24)
  }

  const NESTED_CD := ScopeExpr(Scope(R(0, 8, 0, 16), [".c", ".d"], []))
  const NESTED_E := ScopeExpr(Scope(R(0, 18, 0, 22), ["#e"], []))
  const NESTED_AB := ScopeExpr(Scope(R(0, 0, 0, 24), [".a .b"], [NESTED_CD, NESTED_E]))

  lemma NestedSelectorsE(toks: seq<PToken>)
    requires NestedSelectorsShape(toks)
    ensures ExpressionsFrom(toks, 8) == Parsed([NESTED_E], 11)
  {
    OneSelector(toks, 8, "#e");
    assert ExpressionsFrom(toks, 10) == Parsed([], 10);
    ScopeFromParts(toks, 8, Parsed(["#e"], 9), Parsed([], 10));
    assert FirstDelimiter(toks, 9) == 9;
    assert ConstructFrom(toks, 8) == Parsed([NESTED_E], 10);
    assert [NESTED_E] + ExpressionsFrom(toks, 11).value == [NESTED_E];
  }

  lemma NestedSelectorsCD(toks: seq<PToken>)
    requires NestedSelectorsShape(toks)
    ensures ExpressionsFrom(toks, 3) == Parsed([NESTED_CD, NESTED_E], 11)
  {
    NestedSelectorsE(toks);
    TwoSelectors(toks, 3, ".c", ".d");
    assert ExpressionsFrom(toks, 7) == Parsed([], 7);
    ScopeFromParts(toks, 3, Parsed([".c", ".d"], 6), Parsed([], 7));
    assert FirstDelimiter(toks, 4) == 6;
    assert ConstructFrom(toks, 3) == Parsed([NESTED_CD], 7);
    assert [NESTED_CD] + [NESTED_E] == [NESTED_CD, NESTED_E];
  }

  /** Scopes nested in a scope: a selector list and a single id selector inside a descendant selector. */
  lemma NestedSelectorsExample(toks: seq<PToken>)
    requires NestedSelectorsShape(toks)
    ensures ExpressionsFrom(toks, 0) == Parsed([NESTED_AB], 12)
  {
    NestedSelectorsCD(toks);
    TrimCleanSpace(".a .b");
    assert [] + [".a .b"] == [".a .b"];
    assert SelectorsFrom(toks, 2, ".a .b" + " ", []) == Parsed([".a .b"], 2);
    assert ".a" + " " + ".b" + " " == ".a .b" + " ";
    assert SelectorsFrom(toks, 1, ".a" + " ", []) == Parsed([".a .b"], 2);
    assert "" + ".a" + " " == ".a" + " ";
    assert SelectorsFrom(toks, 0, "", []) == Parsed([".a .b"], 2);
    ScopeFromParts(toks, 0, Parsed([".a .b"], 2), Parsed([NESTED_CD, NESTED_E], 11));
    assert FirstDelimiter(toks, 1) == 2;
    assert ConstructFrom(toks, 0) == Parsed([NESTED_AB], 11);
    assert [NESTED_AB] + ExpressionsFrom(toks, 12).value == [NESTED_AB];
  }

  // ---------------------------------------------------------------------------------------------
  // `.a {}\n.c {}` and `$primary: #123456;`

  predicate TwoScopesShape(toks: seq<PToken>) {
    |toks| == 6
    && toks[0] == Tok(Value(".a"), 0, 0) && toks[1] == Tok(LBrace, 0, 3) && toks[2] == Tok(RBrace, 0, 4)
    && toks[3] == Tok(Value(".c"), 1, 0) && toks[4] == Tok(LBrace, 1, 3) && toks[5] == Tok(RBrace, 1, 4)
  }

  const SCOPE_A := ScopeExpr(Scope(R(0, 0, 0, 4), [".a"], []))
  const SCOPE_C := ScopeExpr(Scope(R(1, 0, 1, 4), [".c"], []))

  /** Two empty scopes, each spanning from its selector to its `}`. */
  lemma TwoScopesExample(toks: seq<PToken>)
    requires TwoScopesShape(toks)
    ensures ExpressionsFrom(toks, 0) == Parsed([SCOPE_A, SCOPE_C], 6)
  {
    OneSelector(toks, 3, ".c");
    assert ExpressionsFrom(toks, 5) == Parsed([], 5);
    ScopeFromParts(toks, 3, Parsed([".c"], 4), Parsed([], 5));
    assert ConstructFrom(toks, 3) == Parsed([SCOPE_C], 5);
    assert [SCOPE_C] + ExpressionsFrom(toks, 6).value == [SCOPE_C];
    assert ExpressionsFrom(toks, 3) == Parsed([SCOPE_C], 6);
    OneSelector(toks, 0, ".a");
    assert ExpressionsFrom(toks, 2) == Parsed([], 2);
    ScopeFromParts(toks, 0, Parsed([".a"], 1), Parsed([], 2));
    assert ConstructFrom(toks, 0) == Parsed([SCOPE_A], 2);
    assert [SCOPE_A] + [SCOPE_C] == [SCOPE_A, SCOPE_C];
  }

  predicate VariableShape(toks: seq<PToken>) {
    |toks| == 4
    && toks[0] == Tok(Value("$primary"), 0, 0) && toks[1] == Tok(Colon, 0, 8)
    && toks[2] == Tok(Value("#123456"), 0, 10) && toks[3] == Tok(Semicolon, 0, 17)
  }

  const VARIABLE := PropertyExpr(Property(R(0, 0, 0, 17), "$primary", "#123456"))

  /** A variable declaration is a property like any other. */
  lemma VariableExample(toks: seq<PToken>)
    requires VariableShape(toks)
    ensures ExpressionsFrom(toks, 0) == Parsed([VARIABLE], 4)
  {
    assert FirstDelimiter(toks, 1) == 3;
    OneValueProperty(toks, 0, "$primary", "#123456");
    assert ConstructFrom(toks, 0) == Parsed([VARIABLE], 3);
    assert [VARIABLE] + ExpressionsFrom(toks, 4).value == [VARIABLE];
  }

  // ---------------------------------------------------------------------------------------------
  // `; { }`: a scope without selectors

  predicate NoSelectorShape(toks: seq<PToken>) {
    |toks| == 3
    && toks[0] == Tok(Semicolon, 0, 0) && toks[1] == Tok(LBrace, 0, 2) && toks[2] == Tok(RBrace, 0, 4)
  }

  /**
   * The selector loop stops at once on a `;` and the step after it lands on the `{`, which the body
   * then skips: the scope is kept with an empty selector list.
   */
  lemma NoSelectorExample(toks: seq<PToken>)
    requires NoSelectorShape(toks)
    ensures ExpressionsFrom(toks, 0) == Parsed([ScopeExpr(Scope(R(0, 0, 0, 4), [], []))], 3)
  {
    assert SelectorsFrom(toks, 0, "", []) == Parsed([], 0);
    assert FirstDelimiter(toks, 2) == 3;
    assert ConstructFrom(toks, 1) == Parsed([], 1);
    assert ExpressionsFrom(toks, 2) == Parsed([], 2);
    var none: seq<Expr> := [];
    assert none + none == none;
    assert ExpressionsFrom(toks, 1) == Parsed(none + none, 2);
    ScopeFromParts(toks, 0, Parsed([], 0), Parsed([], 2));
    assert FirstDelimiter(toks, 1) == 1;
    assert ConstructFrom(toks, 0) == Parsed([ScopeExpr(Scope(R(0, 0, 0, 4), [], []))], 2);
    assert [ScopeExpr(Scope(R(0, 0, 0, 4), [], []))] + ExpressionsFrom(toks, 3).value == [ScopeExpr(Scope(R(0, 0, 0, 4), [], []))];
  }

  // ---------------------------------------------------------------------------------------------
  // `} .a {}`: a stray `}` at the top level

  predicate StrayBraceShape(toks: seq<PToken>) {
    |toks| == 4
    && toks[0] == Tok(RBrace, 0, 0) && toks[1] == Tok(Value(".a"), 0, 2)
    && toks[2] == Tok(LBrace, 0, 5) && toks[3] == Tok(RBrace, 0, 6)
  }

  /**
   * The block loop stops on any `}`, also at the top level, so `parse` returns nothing here and
   * never reaches the scope that starts right after the stray brace.
   */
  lemma StrayBraceExample(toks: seq<PToken>)
    requires StrayBraceShape(toks)
    ensures ExpressionsFrom(toks, 0) == Parsed([], 0)
    ensures ConstructFrom(toks, 1) == Parsed([ScopeExpr(Scope(R(0, 2, 0, 6), [".a"], []))], 3)
  {
    OneSelector(toks, 1, ".a");
    assert ExpressionsFrom(toks, 3) == Parsed([], 3);
    ScopeFromParts(toks, 1, Parsed([".a"], 2), Parsed([], 3));
  }

  // ---------------------------------------------------------------------------------------------
  // `a : b } c {`: the lookahead runs past a `}`

  predicate LookaheadPastBraceShape(toks: seq<PToken>) {
    |toks| == 6
    && toks[0] == Tok(Value("a"), 0, 0) && toks[1] == Tok(Colon, 0, 2) && toks[2] == Tok(Value("b"), 0, 4)
    && toks[3] == Tok(RBrace, 0, 6) && toks[4] == Tok(Value("c"), 0, 8) && toks[5] == Tok(LBrace, 0, 10)
  }

  /**
   * `is_property` and `is_scope` look only for `;` and `{`: the `}` that closes the block does not
   * stop them, so `a` counts as the head of a scope whose `{` lies beyond the block's end.
   */
  lemma LookaheadPastBraceExample(toks: seq<PToken>)
    requires LookaheadPastBraceShape(toks)
    ensures IsScopeAt(toks, 0) && !IsPropertyAt(toks, 0)
  {
    assert FirstDelimiter(toks, 1) == 5;
  }
}
