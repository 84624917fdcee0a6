/**
 * The part of the ECMAScript syntax tree that the class enumerator of the
 * swc plugin inspects. Every node kind it does not look into is collapsed
 * into one `Other...` constructor.
 */
module SwcAst {
  import opened Collections

  /** A property key: an identifier, or any other kind (string, number, computed). */
  datatype PropName = IdentName(sym: string) | OtherName

  datatype Expr =
    | ObjectLit(props: seq<PropOrSpread>)
    | ArrayLit(elems: seq<Option<ExprOrSpread>>)
    | StrLit(value: string)
    | BoolLit(b: bool)
    | IdentRef(sym: string)
    | OtherExpr

  /** An argument or array element, with its `...` flag. */
  datatype ExprOrSpread = ExprOrSpread(spread: bool, expr: Expr)

  /** `key: value`, or any other property form (shorthand, method, getter, ...). */
  datatype Prop = KeyValue(key: PropName, value: Expr) | OtherProp

  datatype PropOrSpread = PropItem(prop: Prop) | SpreadItem(expr: Expr)

  datatype Callee = CalleeExpr(expr: Expr) | OtherCallee

  datatype CallExpr = CallExpr(callee: Callee, args: seq<ExprOrSpread>)

  /** A top-level item of a module body. */
  datatype ModuleItem =
    | ImportDecl(source: string)
    | OtherDecl
    | StrStmt(value: string)
    | OtherStmt
}
