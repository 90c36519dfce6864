/** The small part of the GraphQL type system the deprecation rule looks at:
    named types, the List and NonNull wrappers around them, and schema
    elements that carry an optional deprecation reason. */
module TypeDefinition {
  import opened Ast

  /** A field, argument, input field or enum value definition. A reason of
      `None` stands for both `null` and `undefined`. */
  datatype Deprecatable = Deprecatable(name: string, deprecationReason: Option<string>)

  /** The source's test `deprecationReason != null`: any present reason,
      the empty string included, marks the element deprecated. */
  predicate IsDeprecated(d: Deprecatable) {
    d.deprecationReason.Some?
  }

  datatype DirectiveDefinition = DirectiveDefinition(name: string)

  /** The kind of a named type; only an input object type carries the field
      map the deprecation rule consults. */
  datatype TypeKind =
    | ScalarKind
    | ObjectKind
    | InterfaceKind
    | UnionKind
    | EnumKind
    | InputObjectKind(fields: map<string, Deprecatable>)

  datatype NamedType = NamedType(name: string, kind: TypeKind)

  /** A type as a position in a document sees it: a named type inside any
      number of List and NonNull wrappers. */
  datatype TypeRef = Named(named: NamedType) | ListOf(ofType: TypeRef) | NonNullOf(ofType: TypeRef)

  datatype Wrapper = List | NonNull

  /** Puts the wrappers around `t`, outermost first. */
  function Wrap(ws: seq<Wrapper>, t: TypeRef): TypeRef {
    if ws == [] then t
    else match ws[0]
      case List => ListOf(Wrap(ws[1..], t))
      case NonNull => NonNullOf(Wrap(ws[1..], t))
  }

  /** The wrappers around the named type of `t`, outermost first. */
  function Wrappers(t: TypeRef): seq<Wrapper> {
    match t
    case Named(_) => []
    case ListOf(inner) => [List] + Wrappers(inner)
    case NonNullOf(inner) => [NonNull] + Wrappers(inner)
  }

  function Unwrap(t: TypeRef): NamedType {
    match t
    case Named(n) => n
    case ListOf(inner) => Unwrap(inner)
    case NonNullOf(inner) => Unwrap(inner)
  }

  /** `getNamedType`: absent stays absent, otherwise every wrapper is stripped. */
  function GetNamedType(t: Option<TypeRef>): (r: Option<NamedType>)
    ensures r.Some? <==> t.Some?
  {
    match t
    case None => None
    case Some(ty) => Some(Unwrap(ty))
  }

  /** `isInputObjectType`: false of an absent type. */
  predicate IsInputObjectType(t: Option<NamedType>) {
    t.Some? && t.value.kind.InputObjectKind?
  }

  /** Unwrapping ignores any stack of wrappers. */
  lemma {:induction false} UnwrapWrap(ws: seq<Wrapper>, n: NamedType)
    ensures Unwrap(Wrap(ws, Named(n))) == n
  {
    if ws != [] {
      UnwrapWrap(ws[1..], n);
    }
  }

  /** Every type is its named type inside its wrappers, so `Unwrap` loses
      only the wrappers. */
  lemma {:induction false} WrapWrappers(t: TypeRef)
    ensures t == Wrap(Wrappers(t), Named(Unwrap(t)))
  {
    match t
    case Named(_) =>
    case ListOf(inner) =>
      WrapWrappers(inner);
      assert ([List] + Wrappers(inner))[1..] == Wrappers(inner);
    case NonNullOf(inner) =>
      WrapWrappers(inner);
      assert ([NonNull] + Wrappers(inner))[1..] == Wrappers(inner);
  }
}
