/** The validation context shared by the rules of one validation run: the
    optional schema to validate against, the definitions that are "current"
    at the traversal's position, and the diagnostic sink. */
module Context {
  import opened Ast
  import opened TypeDefinition

  /** A built schema, as far as the uniqueness rules query it: the names
      `getType` and `getDirective` resolve. */
  datatype Schema = Schema(typeNames: set<string>, directiveNames: set<string>)

  /** The positional accessors `getParentType`, `getFieldDef`, `getArgument`,
      `getDirective`, `getParentInputType`, `getInputType` and `getEnumValue`
      at the node being visited; `None` where no such definition is current. */
  datatype TypeInfo = TypeInfo(
    parentType: Option<NamedType>,
    fieldDef: Option<Deprecatable>,
    argument: Option<Deprecatable>,
    directive: Option<DirectiveDefinition>,
    parentInputType: Option<TypeRef>,
    inputType: Option<TypeRef>,
    enumValue: Option<Deprecatable>)

  /** No definition is current: the position of a schema-definition
      document, whose context tracks none. */
  const NoPosition := TypeInfo(None, None, None, None, None, None, None)

  class ValidationContext {
    const schema: Option<Schema>
    /** Kept in step with the traversal by the traversal engine. */
    var typeInfo: TypeInfo
    /** The diagnostics reported so far, in the order they were reported. */
    var errors: seq<Diagnostic>

    constructor (schema: Option<Schema>, typeInfo: TypeInfo)
      ensures this.schema == schema && this.typeInfo == typeInfo && errors == []
    {
      this.schema := schema;
      this.typeInfo := typeInfo;
      errors := [];
    }

    /** The context of a schema-definition document. */
    constructor ForSDL(schema: Option<Schema>)
      ensures this.schema == schema && typeInfo == NoPosition && errors == []
    {
      this.schema := schema;
      typeInfo := NoPosition;
      errors := [];
    }

    /** `context.report`: appends one diagnostic to the sink. */
    method Report(d: Diagnostic)
      modifies this`errors
      ensures errors == old(errors) + [d]
    {
      errors := errors + [d];
    }
  }
}
