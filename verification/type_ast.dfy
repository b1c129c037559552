/**
  The type-expression tree the editor prints: `TypeAstNode` of the shared
  types crate. Only the fields the printer reads are modelled.
 */
module TypeAst {

  datatype TypeAstNode =
    | Primitive(name: string)
    | Path(path: string)
    | AliasRef(alias: string)
    | Constructor(name: string, params: seq<TypeAstNode>)
    | Tuple(elements: seq<TypeAstNode>)
    | FnPointer(params: seq<TypeAstNode>, returnType: TypeAstNode)

  /** Characters that never occur as punctuation in printed type syntax. */
  predicate IdentChar(c: char) {
    c != '<' && c != '>' && c != '(' && c != ')' && c != ','
  }

  /** A name the printer can emit without it being mistaken for punctuation. */
  predicate IsIdent(s: string) {
    |s| > 0 && forall i :: 0 <= i < |s| ==> IdentChar(s[i])
  }

  /** Every name in the tree is a non-empty identifier-like string. */
  predicate WellFormed(t: TypeAstNode)
    decreases t
  {
    match t
    case Primitive(n) => IsIdent(n)
    case Path(p) => IsIdent(p)
    case AliasRef(a) => IsIdent(a)
    case Constructor(n, ps) => IsIdent(n) && AllWellFormed(ps)
    case Tuple(es) => AllWellFormed(es)
    case FnPointer(ps, ret) => AllWellFormed(ps) && WellFormed(ret)
  }

  predicate AllWellFormed(ts: seq<TypeAstNode>)
    decreases ts
  {
    forall i :: 0 <= i < |ts| ==> WellFormed(ts[i])
  }

  /** Leaf kinds are indistinguishable once printed: collapse them all to `Primitive`. */
  function Normal(t: TypeAstNode): (r: TypeAstNode)
    decreases t
  {
    match t
    case Primitive(n) => Primitive(n)
    case Path(p) => Primitive(p)
    case AliasRef(a) => Primitive(a)
    case Constructor(n, ps) => Constructor(n, NormalEach(ps))
    case Tuple(es) => Tuple(NormalEach(es))
    case FnPointer(ps, ret) => FnPointer(NormalEach(ps), Normal(ret))
  }

  function NormalEach(ts: seq<TypeAstNode>): (r: seq<TypeAstNode>)
    ensures |r| == |ts|
    ensures forall i :: 0 <= i < |ts| ==> r[i] == Normal(ts[i])
    decreases ts
  {
    if ts == [] then [] else [Normal(ts[0])] + NormalEach(ts[1..])
  }
}
