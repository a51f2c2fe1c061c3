/** The expression tree the parser produces: a closed sum of six node kinds, each with a `Range`. */
module Expression {
  import opened Position

  /** A rule block: its selectors and the nested expressions of its body. */
  datatype Scope = Scope(range: Range, selectors: seq<string>, children: seq<Expr>)

  /** A `key: value;` declaration. */
  datatype Property = Property(range: Range, key: string, value: string)

  datatype Import = Import(range: Range, path: string)

  datatype Include = Include(range: Range, todo: string)

  datatype Mixin = Mixin(range: Range, todo: string, children: seq<Expr>)

  datatype Media = Media(range: Range, name: string, children: seq<Expr>)

  datatype Expr =
    | ScopeExpr(asScope: Scope)
    | PropertyExpr(asProperty: Property)
    | ImportExpr(asImport: Import)
    | IncludeExpr(asInclude: Include)
    | MixinExpr(asMixin: Mixin)
    | MediaExpr(asMedia: Media)

  /** The range every node kind carries. */
  function RangeOf(e: Expr): Range {
    match e
    case ScopeExpr(s) => s.range
    case PropertyExpr(p) => p.range
    case ImportExpr(i) => i.range
    case IncludeExpr(i) => i.range
    case MixinExpr(m) => m.range
    case MediaExpr(m) => m.range
  }

  /** Every node of the tree has its `from` no later than its `to`. */
  predicate WellRanged(e: Expr) {
    CursorLe(RangeOf(e).from, RangeOf(e).to)
    && match e
       case ScopeExpr(s) => forall c :: c in s.children ==> WellRanged(c)
       case MixinExpr(m) => forall c :: c in m.children ==> WellRanged(c)
       case MediaExpr(m) => forall c :: c in m.children ==> WellRanged(c)
       case _ => true
  }
}
