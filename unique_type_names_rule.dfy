/** Unique type names: a document is valid only if all the types it defines
    have unique names, and none of them is already defined by the schema it
    extends. */
module UniqueTypeNames {
  import opened Ast
  import opened Templates
  import opened UniqueNames
  import opened Context

  /** The six node kinds the rule's visitor dispatches to one handler. */
  datatype TypeDefinitionKind =
    | ScalarTypeDefinition
    | ObjectTypeDefinition
    | InterfaceTypeDefinition
    | UnionTypeDefinition
    | EnumTypeDefinition
    | InputObjectTypeDefinition

  datatype TypeDefinitionNode = TypeDefinitionNode(kind: TypeDefinitionKind, name: NameNode)

  /** The wording of this rule's two messages. */
  const TypeWording: ClosedWording :=
    Wording("Type \"", "\"" + AlreadyExistsTail,
            "There can be only one type named \"", "\".")

  const AlreadyExistsTail := " already exists in the schema. It cannot also be defined in this type definition."

  /** The type names `schema.getType` resolves, when a schema is bound. */
  function TypeNames(schema: Option<Schema>): Option<set<string>> {
    if schema.Some? then Some(schema.value.typeNames) else None
  }

  /** The name node a definition declares. */
  function NameOf(node: TypeDefinitionNode): NameNode {
    node.name
  }

  class UniqueTypeNamesRule {
    const context: ValidationContext
    /** The names the context's schema resolves, read once when the rule is built. */
    const schema: Option<set<string>>
    var knownTypeNames: Table
    /** The name nodes of the definitions visited so far, in order. */
    ghost var declared: seq<NameNode>
    /** The diagnostics this instance has reported so far, in order. */
    ghost var reported: seq<Diagnostic>

    ghost predicate Valid()
      reads this
    {
      && knownTypeNames == Run(schema, map[], declared).table
      && reported == RenderAll(TypeWording, Reported(Run(schema, map[], declared).findings))
    }

    /** A rule instance starts from an empty table that knows no name at all
        (the source's table has no prototype, so not even "constructor"). */
    constructor (context: ValidationContext)
      ensures Valid()
      ensures this.context == context && schema == TypeNames(context.schema)
      ensures knownTypeNames == map[] && declared == [] && reported == []
    {
      this.context := context;
      schema := TypeNames(context.schema);
      knownTypeNames := map[];
      declared := [];
      reported := [];
    }

    /** `checkTypeName`, the handler of all six type-definition kinds. */
    method CheckTypeName(node: TypeDefinitionNode) returns (skip: Option<bool>)
      requires Valid()
      modifies this`knownTypeNames, this`declared, this`reported, context`errors
      ensures Valid() && declared == old(declared) + [node.name]
      ensures var s := Check(schema, old(knownTypeNames), node.name);
              && knownTypeNames == s.table
              && skip == s.skip
              && context.errors == old(context.errors) + Emitted(TypeWording, s.finding)
              && reported == old(reported) + Emitted(TypeWording, s.finding)
    {
      var typeName := node.name.value;
      ghost var s := Check(schema, knownTypeNames, node.name);
      RunSnoc(schema, map[], declared, node.name);
      ReportedSnoc(Run(schema, map[], declared).findings, s.finding);
      RenderAllSnoc(TypeWording, Reported(Run(schema, map[], declared).findings), s.finding);
      declared := declared + [node.name];

      if schema.Some? && typeName in schema.value {
        var d := Diagnostic(AlreadyExistsMessage(TypeWording, typeName), [node.name.id]);
        context.Report(d);
        reported := reported + [d];
        return None;
      }

      if typeName in knownTypeNames {
        var d := Diagnostic(DuplicateMessage(TypeWording, typeName), [knownTypeNames[typeName], node.name.id]);
        context.Report(d);
        reported := reported + [d];
      } else {
        knownTypeNames := knownTypeNames[typeName := node.name.id];
      }

      return Some(false);
    }
  }

  /** N definitions of one type name the schema does not have, whatever
      their six kinds, report N - 1 "only one type" diagnostics, the k-th
      blaming the first definition and the (k + 1)-th. */
  lemma RepeatedTypeName(schema: Option<set<string>>, nodes: seq<TypeDefinitionNode>, name: string)
    requires |nodes| > 0
    requires forall i :: 0 <= i < |nodes| ==> nodes[i].name.value == name
    requires !InSchema(schema, name)
    ensures |Diagnostics(TypeWording, schema, nodes, NameOf)| == |nodes| - 1
    ensures forall k :: 0 <= k < |nodes| - 1 ==>
      Diagnostics(TypeWording, schema, nodes, NameOf)[k] ==
        Diagnostic(DuplicateMessage(TypeWording, name), [nodes[0].name.id, nodes[k + 1].name.id])
  {
    var names := NamesOf(nodes, NameOf);
    RepeatedName(schema, map[], names, name);
  }

  /** Every definition of a type the schema already has reports "already
      exists" on its own name node, and none reports a duplicate. */
  lemma RedefinedSchemaType(schema: Option<set<string>>, nodes: seq<TypeDefinitionNode>, name: string)
    requires forall i :: 0 <= i < |nodes| ==> nodes[i].name.value == name
    requires InSchema(schema, name)
    ensures |Diagnostics(TypeWording, schema, nodes, NameOf)| == |nodes|
    ensures forall k :: 0 <= k < |nodes| ==>
      Diagnostics(TypeWording, schema, nodes, NameOf)[k] ==
        Diagnostic(AlreadyExistsMessage(TypeWording, name), [nodes[k].name.id])
  {
    var names := NamesOf(nodes, NameOf);
    var r := Run(schema, map[], names);
    SchemaName(schema, map[], names, name);
    ReportedAllPresent(r.findings);
  }
}
