/** Unique directive names: a document is valid only if all the directives
    it defines have unique names, and none of them is already defined by the
    schema it extends. */
module UniqueDirectiveNames {
  import opened Ast
  import opened Templates
  import opened UniqueNames
  import opened Context
  import UniqueTypeNames

  /** The only node kind this rule's visitor handles. */
  datatype DirectiveDefinitionNode = DirectiveDefinitionNode(name: NameNode)

  /** The wording of this rule's two messages. */
  const DirectiveWording: ClosedWording :=
    Wording("Directive \"@", "\"" + AlreadyExistsTail,
            "There can be only one directive named \"@", "\".")

  const AlreadyExistsTail := " already exists in the schema. It cannot be redefined."

  /** The directive names `schema.getDirective` resolves, when a schema is bound. */
  function DirectiveNames(schema: Option<Schema>): Option<set<string>> {
    if schema.Some? then Some(schema.value.directiveNames) else None
  }

  /** The name node a definition declares. */
  function NameOf(node: DirectiveDefinitionNode): NameNode {
    node.name
  }

  class UniqueDirectiveNamesRule {
    const context: ValidationContext
    /** The names the context's schema resolves, read once when the rule is built. */
    const schema: Option<set<string>>
    /** This instance's own table, shared with no other rule. */
    var knownDirectiveNames: Table
    /** The name nodes of the definitions visited so far, in order. */
    ghost var declared: seq<NameNode>
    /** The diagnostics this instance has reported so far, in order. */
    ghost var reported: seq<Diagnostic>

    ghost predicate Valid()
      reads this
    {
      && knownDirectiveNames == Run(schema, map[], declared).table
      && reported == RenderAll(DirectiveWording, Reported(Run(schema, map[], declared).findings))
    }

    constructor (context: ValidationContext)
      ensures Valid()
      ensures this.context == context && schema == DirectiveNames(context.schema)
      ensures knownDirectiveNames == map[] && declared == [] && reported == []
    {
      this.context := context;
      schema := DirectiveNames(context.schema);
      knownDirectiveNames := map[];
      declared := [];
      reported := [];
    }

    /** The `DirectiveDefinition` handler. */
    method DirectiveDefinition(node: DirectiveDefinitionNode) returns (skip: Option<bool>)
      requires Valid()
      modifies this`knownDirectiveNames, this`declared, this`reported, context`errors
      ensures Valid() && declared == old(declared) + [node.name]
      ensures var s := Check(schema, old(knownDirectiveNames), node.name);
              && knownDirectiveNames == s.table
              && skip == s.skip
              && context.errors == old(context.errors) + Emitted(DirectiveWording, s.finding)
              && reported == old(reported) + Emitted(DirectiveWording, s.finding)
    {
      var directiveName := node.name.value;
      ghost var s := Check(schema, knownDirectiveNames, node.name);
      RunSnoc(schema, map[], declared, node.name);
      ReportedSnoc(Run(schema, map[], declared).findings, s.finding);
      RenderAllSnoc(DirectiveWording, Reported(Run(schema, map[], declared).findings), s.finding);
      declared := declared + [node.name];

      if schema.Some? && directiveName in schema.value {
        var d := Diagnostic(AlreadyExistsMessage(DirectiveWording, directiveName), [node.name.id]);
        context.Report(d);
        reported := reported + [d];
        return None;
      }

      if directiveName in knownDirectiveNames {
        var d := Diagnostic(DuplicateMessage(DirectiveWording, directiveName), [knownDirectiveNames[directiveName], node.name.id]);
        context.Report(d);
        reported := reported + [d];
      } else {
        knownDirectiveNames := knownDirectiveNames[directiveName := node.name.id];
      }

      return Some(false);
    }
  }

  /** N definitions of one directive name the schema does not have report
      N - 1 "only one directive" diagnostics, the k-th blaming the first
      definition and the (k + 1)-th. */
  lemma RepeatedDirectiveName(schema: Option<set<string>>, nodes: seq<DirectiveDefinitionNode>, name: string)
    requires |nodes| > 0
    requires forall i :: 0 <= i < |nodes| ==> nodes[i].name.value == name
    requires !InSchema(schema, name)
    ensures |Diagnostics(DirectiveWording, schema, nodes, NameOf)| == |nodes| - 1
    ensures forall k :: 0 <= k < |nodes| - 1 ==>
      Diagnostics(DirectiveWording, schema, nodes, NameOf)[k] ==
        Diagnostic(DuplicateMessage(DirectiveWording, name), [nodes[0].name.id, nodes[k + 1].name.id])
  {
    RepeatedName(schema, map[], NamesOf(nodes, NameOf), name);
  }

  /** Every definition of a directive the schema already has reports
      "already exists" on its own name node, and none reports a duplicate. */
  lemma RedefinedSchemaDirective(schema: Option<set<string>>, nodes: seq<DirectiveDefinitionNode>, name: string)
    requires forall i :: 0 <= i < |nodes| ==> nodes[i].name.value == name
    requires InSchema(schema, name)
    ensures |Diagnostics(DirectiveWording, schema, nodes, NameOf)| == |nodes|
    ensures forall k :: 0 <= k < |nodes| ==>
      Diagnostics(DirectiveWording, schema, nodes, NameOf)[k] ==
        Diagnostic(AlreadyExistsMessage(DirectiveWording, name), [nodes[k].name.id])
  {
    var names := NamesOf(nodes, NameOf);
    SchemaName(schema, map[], names, name);
    ReportedAllPresent(Run(schema, map[], names).findings);
  }

  /** The two uniqueness rules keep separate tables: a type and a directive
      of the same name, defined in one document whose schema (if any) has
      neither, are reported by neither rule. */
  method TypeAndDirectiveDoNotCollide(schema: Option<Schema>, typeNode: UniqueTypeNames.TypeDefinitionNode,
                                      directiveNode: DirectiveDefinitionNode)
    returns (errors: seq<Diagnostic>)
    requires typeNode.name.value == directiveNode.name.value
    requires schema.Some? ==>
      typeNode.name.value !in schema.value.typeNames && directiveNode.name.value !in schema.value.directiveNames
    ensures errors == []
  {
    var context := new ValidationContext.ForSDL(schema);
    var typeRule := new UniqueTypeNames.UniqueTypeNamesRule(context);
    var directiveRule := new UniqueDirectiveNamesRule(context);
    var typeSkip := typeRule.CheckTypeName(typeNode);
    var directiveSkip := directiveRule.DirectiveDefinition(directiveNode);
    errors := context.errors;
  }
}
