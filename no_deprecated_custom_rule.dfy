/** No deprecated: reports every use of a deprecated field, argument, input
    field or enum value. The rule is advisory (it is not part of the
    validation section of the GraphQL specification): it only reports, never
    skips a subtree, so nested deprecated uses are each reported. Each
    handler reads the definitions current at the visited node and reports at
    most one diagnostic; when a definition that the traversal guarantees is
    missing, the source's `invariant` throws, which is `InvariantViolation`
    here. */
module NoDeprecated {
  import opened Ast
  import opened Templates
  import opened TypeDefinition
  import opened Context

  /** What one handler call does: nothing, one report, or an internal
      consistency fault that ends the validation run without a report. */
  datatype Outcome = NoReport | Report(diagnostic: Diagnostic) | InvariantViolation

  /** What one handler call appends to the sink. */
  function Emitted(o: Outcome): (ds: seq<Diagnostic>)
    ensures |ds| <= 1
  {
    if o.Report? then [o.diagnostic] else []
  }

  // The messages, and the templates that read them back.

  function FieldMessage(parentType: string, field: string, reason: string): string {
    "The field " + parentType + "." + field + " is deprecated. " + reason
  }

  const FieldTemplate: seq<Piece> := [Lit("The field "), Hole, Lit("."), Hole, Lit(" is deprecated. "), Hole]

  function DirectiveArgumentMessage(directive: string, argument: string, reason: string): string {
    "Directive \"@" + directive + "\" argument \"" + argument + "\" is deprecated. " + reason
  }

  const DirectiveArgumentTemplate: seq<Piece> :=
    [Lit("Directive \"@"), Hole, Lit("\" argument \""), Hole, Lit("\" is deprecated. "), Hole]

  function FieldArgumentMessage(parentType: string, field: string, argument: string, reason: string): string {
    "Field \"" + parentType + "." + field + "\" argument \"" + argument + "\" is deprecated. " + reason
  }

  const FieldArgumentTemplate: seq<Piece> :=
    [Lit("Field \""), Hole, Lit("."), Hole, Lit("\" argument \""), Hole, Lit("\" is deprecated. "), Hole]

  function InputFieldMessage(inputType: string, field: string, reason: string): string {
    "The input field " + inputType + "." + field + " is deprecated. " + reason
  }

  const InputFieldTemplate: seq<Piece> := [Lit("The input field "), Hole, Lit("."), Hole, Lit(" is deprecated. "), Hole]

  function EnumValueMessage(enumType: string, value: string, reason: string): string {
    "The enum value \"" + enumType + "." + value + "\" is deprecated. " + reason
  }

  const EnumValueTemplate: seq<Piece> :=
    [Lit("The enum value \""), Hole, Lit("."), Hole, Lit("\" is deprecated. "), Hole]

  // Every message is its template filled with the names and the reason, and
  // reads back into them, so a message determines the deprecated element it
  // reports.

  lemma FieldMessageDecodes(parentType: string, field: string, reason: string)
    ensures FieldMessage(parentType, field, reason) == Fill(FieldTemplate, [parentType, field, reason])
    ensures IsName(parentType) && IsName(field) ==>
      Match(FieldTemplate, FieldMessage(parentType, field, reason)) == Some([parentType, field, reason])
  {
    ThreeSlotsFill("The field ", ".", " is deprecated. ", parentType, field, reason);
    if IsName(parentType) && IsName(field) {
      NameAdmitted(parentType);
      NameAdmitted(field);
      ThreeSlots("The field ", ".", " is deprecated. ", parentType, field, reason);
    }
  }

  lemma DirectiveArgumentMessageDecodes(directive: string, argument: string, reason: string)
    ensures DirectiveArgumentMessage(directive, argument, reason)
         == Fill(DirectiveArgumentTemplate, [directive, argument, reason])
    ensures IsName(directive) && IsName(argument) ==>
      Match(DirectiveArgumentTemplate, DirectiveArgumentMessage(directive, argument, reason))
        == Some([directive, argument, reason])
  {
    ThreeSlotsFill("Directive \"@", "\" argument \"", "\" is deprecated. ", directive, argument, reason);
    if IsName(directive) && IsName(argument) {
      NameAdmitted(directive);
      NameAdmitted(argument);
      ThreeSlots("Directive \"@", "\" argument \"", "\" is deprecated. ", directive, argument, reason);
    }
  }

  lemma FieldArgumentMessageDecodes(parentType: string, field: string, argument: string, reason: string)
    ensures FieldArgumentMessage(parentType, field, argument, reason)
         == Fill(FieldArgumentTemplate, [parentType, field, argument, reason])
    ensures IsName(parentType) && IsName(field) && IsName(argument) ==>
      Match(FieldArgumentTemplate, FieldArgumentMessage(parentType, field, argument, reason))
        == Some([parentType, field, argument, reason])
  {
    FourSlotsFill("Field \"", ".", "\" argument \"", "\" is deprecated. ", parentType, field, argument, reason);
    if IsName(parentType) && IsName(field) && IsName(argument) {
      NameAdmitted(parentType);
      NameAdmitted(field);
      NameAdmitted(argument);
      FourSlots("Field \"", ".", "\" argument \"", "\" is deprecated. ", parentType, field, argument, reason);
    }
  }

  lemma InputFieldMessageDecodes(inputType: string, field: string, reason: string)
    ensures InputFieldMessage(inputType, field, reason) == Fill(InputFieldTemplate, [inputType, field, reason])
    ensures IsName(inputType) && IsName(field) ==>
      Match(InputFieldTemplate, InputFieldMessage(inputType, field, reason)) == Some([inputType, field, reason])
  {
    ThreeSlotsFill("The input field ", ".", " is deprecated. ", inputType, field, reason);
    if IsName(inputType) && IsName(field) {
      NameAdmitted(inputType);
      NameAdmitted(field);
      ThreeSlots("The input field ", ".", " is deprecated. ", inputType, field, reason);
    }
  }

  lemma EnumValueMessageDecodes(enumType: string, value: string, reason: string)
    ensures EnumValueMessage(enumType, value, reason) == Fill(EnumValueTemplate, [enumType, value, reason])
    ensures IsName(enumType) && IsName(value) ==>
      Match(EnumValueTemplate, EnumValueMessage(enumType, value, reason)) == Some([enumType, value, reason])
  {
    ThreeSlotsFill("The enum value \"", ".", "\" is deprecated. ", enumType, value, reason);
    if IsName(enumType) && IsName(value) {
      NameAdmitted(enumType);
      NameAdmitted(value);
      ThreeSlots("The enum value \"", ".", "\" is deprecated. ", enumType, value, reason);
    }
  }

  // The four handlers as functions of the current definitions.

  /** The `Field` handler. */
  function FieldRule(info: TypeInfo, node: NodeId): (o: Outcome)
    ensures o.NoReport? <==> !(info.fieldDef.Some? && IsDeprecated(info.fieldDef.value))
    ensures o.InvariantViolation? <==>
      info.fieldDef.Some? && IsDeprecated(info.fieldDef.value) && info.parentType.None?
    ensures o.Report? ==> o.diagnostic.nodes == [node]
    ensures o.Report? ==> info.parentType.Some? && info.fieldDef.Some? && IsDeprecated(info.fieldDef.value)
    ensures o.Report? ==>
      o.diagnostic.message == Fill(FieldTemplate,
        [info.parentType.value.name, info.fieldDef.value.name, info.fieldDef.value.deprecationReason.value])
    ensures o.Report? && IsName(info.parentType.value.name) && IsName(info.fieldDef.value.name) ==>
      Match(FieldTemplate, o.diagnostic.message) ==
        Some([info.parentType.value.name, info.fieldDef.value.name, info.fieldDef.value.deprecationReason.value])
  {
    if info.fieldDef.Some? && IsDeprecated(info.fieldDef.value) then
      var fieldDef := info.fieldDef.value;
      if info.parentType.None? then InvariantViolation
      else
        var parentType := info.parentType.value;
        FieldMessageDecodes(parentType.name, fieldDef.name, fieldDef.deprecationReason.value);
        Report(Diagnostic(FieldMessage(parentType.name, fieldDef.name, fieldDef.deprecationReason.value), [node]))
    else NoReport
  }

  /** The `Argument` handler: a directive argument when a directive is
      current, otherwise a field argument. */
  function ArgumentRule(info: TypeInfo, node: NodeId): (o: Outcome)
    ensures o.NoReport? <==> !(info.argument.Some? && IsDeprecated(info.argument.value))
    ensures o.InvariantViolation? <==>
      && info.argument.Some? && IsDeprecated(info.argument.value)
      && info.directive.None? && (info.parentType.None? || info.fieldDef.None?)
    ensures o.Report? ==> o.diagnostic.nodes == [node]
    ensures o.Report? ==> info.argument.Some? && IsDeprecated(info.argument.value)
    ensures o.Report? && info.directive.Some? ==>
      o.diagnostic.message == Fill(DirectiveArgumentTemplate,
        [info.directive.value.name, info.argument.value.name, info.argument.value.deprecationReason.value])
    // the directive owner takes precedence over the field owner
    ensures o.Report? && info.directive.Some? && IsName(info.directive.value.name) && IsName(info.argument.value.name) ==>
      Match(DirectiveArgumentTemplate, o.diagnostic.message) ==
        Some([info.directive.value.name, info.argument.value.name, info.argument.value.deprecationReason.value])
    ensures o.Report? && info.directive.None? ==> info.parentType.Some? && info.fieldDef.Some?
    ensures o.Report? && info.directive.None? ==>
      o.diagnostic.message == Fill(FieldArgumentTemplate,
        [info.parentType.value.name, info.fieldDef.value.name, info.argument.value.name,
         info.argument.value.deprecationReason.value])
    ensures o.Report? && info.directive.None? && info.parentType.Some? && info.fieldDef.Some? &&
            IsName(info.parentType.value.name) && IsName(info.fieldDef.value.name) && IsName(info.argument.value.name) ==>
      Match(FieldArgumentTemplate, o.diagnostic.message) ==
        Some([info.parentType.value.name, info.fieldDef.value.name, info.argument.value.name,
              info.argument.value.deprecationReason.value])
  {
    if info.argument.Some? && IsDeprecated(info.argument.value) then
      var argDef := info.argument.value;
      var reason := argDef.deprecationReason.value;
      if info.directive.Some? then
        var directiveDef := info.directive.value;
        DirectiveArgumentMessageDecodes(directiveDef.name, argDef.name, reason);
        Report(Diagnostic(DirectiveArgumentMessage(directiveDef.name, argDef.name, reason), [node]))
      else if info.parentType.None? || info.fieldDef.None? then InvariantViolation
      else
        var parentType := info.parentType.value;
        var fieldDef := info.fieldDef.value;
        FieldArgumentMessageDecodes(parentType.name, fieldDef.name, argDef.name, reason);
        Report(Diagnostic(FieldArgumentMessage(parentType.name, fieldDef.name, argDef.name, reason), [node]))
    else NoReport
  }

  /** The input object type enclosing an object field, if any. */
  function EnclosingInputObject(info: TypeInfo): Option<NamedType> {
    var named := GetNamedType(info.parentInputType);
    if IsInputObjectType(named) then named else None
  }

  /** The `ObjectField` handler, for the field named `fieldName` of an
      input object literal. A field the enclosing input object type lacks,
      or an enclosing type that is no input object type, is skipped silently. */
  function ObjectFieldRule(info: TypeInfo, node: NodeId, fieldName: string): (o: Outcome)
    ensures !o.InvariantViolation?
    ensures o.Report? <==>
      && EnclosingInputObject(info).Some?
      && fieldName in EnclosingInputObject(info).value.kind.fields
      && IsDeprecated(EnclosingInputObject(info).value.kind.fields[fieldName])
    ensures o.Report? ==> o.diagnostic.nodes == [node]
    ensures o.Report? ==>
      var fieldDef := EnclosingInputObject(info).value.kind.fields[fieldName];
      o.diagnostic.message ==
        Fill(InputFieldTemplate, [EnclosingInputObject(info).value.name, fieldDef.name, fieldDef.deprecationReason.value])
    ensures o.Report? &&
            IsName(EnclosingInputObject(info).value.name) &&
            IsName(EnclosingInputObject(info).value.kind.fields[fieldName].name) ==>
      var fieldDef := EnclosingInputObject(info).value.kind.fields[fieldName];
      Match(InputFieldTemplate, o.diagnostic.message) ==
        Some([EnclosingInputObject(info).value.name, fieldDef.name, fieldDef.deprecationReason.value])
  {
    var inputObjectDef := GetNamedType(info.parentInputType);
    if IsInputObjectType(inputObjectDef) then
      var fields := inputObjectDef.value.kind.fields;
      if fieldName in fields && IsDeprecated(fields[fieldName]) then
        var inputFieldDef := fields[fieldName];
        var reason := inputFieldDef.deprecationReason.value;
        InputFieldMessageDecodes(inputObjectDef.value.name, inputFieldDef.name, reason);
        Report(Diagnostic(InputFieldMessage(inputObjectDef.value.name, inputFieldDef.name, reason), [node]))
      else NoReport
    else NoReport
  }

  /** The `EnumValue` handler. */
  function EnumValueRule(info: TypeInfo, node: NodeId): (o: Outcome)
    ensures o.NoReport? <==> !(info.enumValue.Some? && IsDeprecated(info.enumValue.value))
    ensures o.InvariantViolation? <==>
      info.enumValue.Some? && IsDeprecated(info.enumValue.value) && info.inputType.None?
    ensures o.Report? ==> o.diagnostic.nodes == [node]
    ensures o.Report? ==> info.inputType.Some? && info.enumValue.Some? && IsDeprecated(info.enumValue.value)
    ensures o.Report? ==>
      o.diagnostic.message == Fill(EnumValueTemplate,
        [Unwrap(info.inputType.value).name, info.enumValue.value.name, info.enumValue.value.deprecationReason.value])
    ensures o.Report? && IsName(Unwrap(info.inputType.value).name) && IsName(info.enumValue.value.name) ==>
      Match(EnumValueTemplate, o.diagnostic.message) ==
        Some([Unwrap(info.inputType.value).name, info.enumValue.value.name, info.enumValue.value.deprecationReason.value])
  {
    if info.enumValue.Some? && IsDeprecated(info.enumValue.value) then
      var enumValueDef := info.enumValue.value;
      var enumTypeDef := GetNamedType(info.inputType);
      if enumTypeDef.None? then InvariantViolation
      else
        var reason := enumValueDef.deprecationReason.value;
        EnumValueMessageDecodes(enumTypeDef.value.name, enumValueDef.name, reason);
        Report(Diagnostic(EnumValueMessage(enumTypeDef.value.name, enumValueDef.name, reason), [node]))
    else NoReport
  }

  /** Only the named type matters to the input-field and enum-value
      handlers: List and NonNull wrappers around it change nothing. */
  lemma WrappersDoNotMatter(info: TypeInfo, ws: seq<Wrapper>, t: NamedType, node: NodeId, fieldName: string)
    ensures ObjectFieldRule(info.(parentInputType := Some(Wrap(ws, Named(t)))), node, fieldName)
         == ObjectFieldRule(info.(parentInputType := Some(Named(t))), node, fieldName)
    ensures EnumValueRule(info.(inputType := Some(Wrap(ws, Named(t)))), node)
         == EnumValueRule(info.(inputType := Some(Named(t))), node)
  {
    UnwrapWrap(ws, t);
  }

  /** A field of `Foo` named `bar`, deprecated for "use baz", is reported
      with exactly this message, on the field node. */
  lemma DeprecatedFieldExample(info: TypeInfo, node: NodeId)
    requires info.parentType == Some(NamedType("Foo", ObjectKind))
    requires info.fieldDef == Some(Deprecatable("bar", Some("use baz")))
    ensures FieldRule(info, node) == Report(Diagnostic("The field Foo.bar is deprecated. use baz", [node]))
  {
    assert "The field " + "Foo" == "The field Foo";
    assert "The field Foo" + "." == "The field Foo.";
    assert "The field Foo." + "bar" == "The field Foo.bar";
    assert "The field Foo.bar" + " is deprecated. " == "The field Foo.bar is deprecated. ";
    assert "The field Foo.bar is deprecated. " + "use baz" == "The field Foo.bar is deprecated. use baz";
  }

  /** The rule instance: its handlers read the context's current
      definitions and append what they report to the context's sink. */
  class NoDeprecatedCustomRule {
    const context: ValidationContext

    constructor (context: ValidationContext)
      ensures this.context == context
    {
      this.context := context;
    }

    method Field(node: NodeId) returns (outcome: Outcome)
      modifies context`errors
      ensures outcome == FieldRule(context.typeInfo, node)
      ensures context.errors == old(context.errors) + Emitted(outcome)
    {
      outcome := FieldRule(context.typeInfo, node);
      if outcome.Report? {
        context.Report(outcome.diagnostic);
      }
    }

    method Argument(node: NodeId) returns (outcome: Outcome)
      modifies context`errors
      ensures outcome == ArgumentRule(context.typeInfo, node)
      ensures context.errors == old(context.errors) + Emitted(outcome)
    {
      outcome := ArgumentRule(context.typeInfo, node);
      if outcome.Report? {
        context.Report(outcome.diagnostic);
      }
    }

    method ObjectField(node: NodeId, fieldName: string) returns (outcome: Outcome)
      modifies context`errors
      ensures outcome == ObjectFieldRule(context.typeInfo, node, fieldName)
      ensures context.errors == old(context.errors) + Emitted(outcome)
    {
      outcome := ObjectFieldRule(context.typeInfo, node, fieldName);
      if outcome.Report? {
        context.Report(outcome.diagnostic);
      }
    }

    method EnumValue(node: NodeId) returns (outcome: Outcome)
      modifies context`errors
      ensures outcome == EnumValueRule(context.typeInfo, node)
      ensures context.errors == old(context.errors) + Emitted(outcome)
    {
      outcome := EnumValueRule(context.typeInfo, node);
      if outcome.Report? {
        context.Report(outcome.diagnostic);
      }
    }
  }
}
