# GraphQL validation rules: unique type names, unique directive names, no deprecated

A Dafny model of three validation rules of the GraphQL reference implementation
(graphql-js):

- **UniqueTypeNamesRule** (section 3.4 of the GraphQL specification, October 2021
  edition: the types of a schema have unique names). One rule instance owns a
  known-name table shared by its six type-definition handlers (scalar, object,
  interface, union, enum, input object). For each definition it either reports
  that the bound schema already has the type, reports a duplicate (blaming the
  first definition and the current one, in that order), or records the name.
  It returns "skip the children" (`false`) except after a schema collision,
  where it returns nothing.
- **UniqueDirectiveNamesRule** (section 3.13, directives): the same protocol
  for `DirectiveDefinition` nodes, with a table of its own.
- **NoDeprecatedCustomRule**: an advisory rule with four handlers (`Field`,
  `Argument`, `ObjectField`, `EnumValue`). Each reads the definitions the
  validation context reports as current and reports at most one diagnostic
  with an exact message; a companion definition that the traversal guarantees
  (the parent type of a field, the owner of an argument, the enum type of an
  enum value) being absent is an internal fault (`invariant` throws).

Files (one module each):

- `ast.dfy` (`Ast`): `Option`, node identities, name nodes, diagnostics
  (message plus blamed node identities), the GraphQL `Name` grammar.
- `templates.dfy` (`Templates`): the template literals the messages are built
  from (`Fill`) and a reader (`Match`); `MatchFill` proves that reading a
  filled template gives back its values when no value contains the character
  that closes its slot, which GraphQL names never do. This is the partner of
  every message-formatting function.
- `type_definition.dfy` (`TypeDefinition`): named types, List/NonNull
  wrappers, `getNamedType`, `isInputObjectType`, deprecatable definitions.
- `validation_context.dfy` (`Context`): the context class: optional schema,
  the current definitions (`TypeInfo`, kept up to date by the traversal),
  and the diagnostic sink with `Report`.
- `unique_names.dfy` (`UniqueNames`): the decision both uniqueness rules take
  for one definition (`Check`), the fold of that decision over a document
  (`Run`), an independent reference description (`Expected`: the schema has
  the name, or the earliest earlier declaration is blamed) and the lemmas
  connecting them; the shape both rules give their two messages
  (`Wording`: fixed text around the name), their rendering and decoding.
- `unique_type_names_rule.dfy` (`UniqueTypeNames`) and
  `unique_directive_names_rule.dfy` (`UniqueDirectiveNames`): each rule as a
  class whose method updates its table in place and appends to the context's
  sink; the object invariant `Valid()` ties the table and the rule's own
  reports to the fold over the names it has seen, so the fold lemmas speak
  about the class. Each rule's wording and document-level lemmas.
- `no_deprecated_custom_rule.dfy` (`NoDeprecated`): each handler's decision
  and message as a function of the current definitions, returning
  `NoReport`, `Report(diagnostic)` or `InvariantViolation`; a class whose
  methods append the report to the context's sink.

Two points of the code's behaviour that the model keeps:

- After a schema collision the handler returns nothing, so the traversal
  visits the definition's children; only the other two outcomes return
  `false`. Neither uniqueness rule handles a node kind that occurs below a
  definition, so nothing observable depends on it.
- Each redeclaration of a schema type or directive reports its own
  "already exists" diagnostic (one per declaration, never a duplicate), not
  one diagnostic per name.

## Model

| member | source | states |
|---|---|---|
| `Context.ValidationContext.Report` | src/validation/rules/UniqueTypeNamesRule.ts:28-31 | `context.report` appends exactly the one diagnostic to the end of the sink |
| `UniqueNames.Check` | src/validation/rules/UniqueTypeNamesRule.ts:24-45 | one handler call: an existing entry is never overwritten; the name is recorded unless the schema has it; a report is made iff the schema has the name or the table already does, and it blames the current node (a duplicate also the recorded first node); no skip signal exactly after a schema collision, `false` otherwise; the finding is the reference `Expected` for a call with no earlier declaration (so a table hit the schema lacks is a duplicate), and a new name is recorded with its own node |
| `UniqueNames.RunMatchesReference` | src/validation/rules/UniqueTypeNamesRule.ts:27-42 | over any sequence of declarations, the k-th call reports exactly what the reference says: "already exists" if the schema has the name, otherwise a duplicate blaming the earliest earlier declaration of the name if there is one, otherwise nothing |
| `UniqueNames.RunTable` | src/validation/rules/UniqueTypeNamesRule.ts:35-42 | after any sequence of declarations the table holds exactly the starting names plus the declared names the schema lacks, each mapped to its earliest declaration |
| `UniqueNames.ReportedAtMostOnePerCall` | src/validation/rules/UniqueTypeNamesRule.ts:24-45 | a run over N declarations reports at most N diagnostics |
| `UniqueNames.RepeatedName` | src/validation/rules/UniqueTypeNamesRule.ts:35-42 | N declarations of a name absent from the schema and the table report exactly N - 1 duplicates, the k-th blaming the first and the (k+1)-th declaration, and the table ends holding the first |
| `UniqueNames.SchemaName` | src/validation/rules/UniqueTypeNamesRule.ts:27-33 | every declaration of a schema name reports "already exists" on itself, none a duplicate, and the table is left unchanged |
| `UniqueTypeNames.UniqueTypeNamesRule.constructor` | src/validation/rules/UniqueTypeNamesRule.ts:11-13 | a rule instance starts with an empty table (no inherited key such as "constructor") and reads the schema's type names once |
| `UniqueTypeNames.UniqueTypeNamesRule.CheckTypeName` | src/validation/rules/UniqueTypeNamesRule.ts:24-45 | the handler's new table, skip signal and appended diagnostic are those of `Check`, rendered with the source's messages; the table stays the fold over all names seen |
| `UniqueTypeNames.RepeatedTypeName` | src/validation/rules/UniqueTypeNamesRule.ts:15-42 | N definitions of one type name, of any of the six kinds, absent from the schema report exactly N - 1 "There can be only one type named" diagnostics with nodes [first, k+1-th] |
| `UniqueTypeNames.RedefinedSchemaType` | src/validation/rules/UniqueTypeNamesRule.ts:27-33 | N definitions of a schema type report N "already exists in the schema" diagnostics, each on its own name node alone |
| `UniqueNames.MessagesDecode` | src/validation/rules/UniqueTypeNamesRule.ts:28-38 | for any wording whose text after the name starts with a character no name contains (both rules' wordings are, by their type), both messages read back to the name they were built from |
| `UniqueNames.DiagnosticDeterminesFinding` | src/validation/rules/UniqueTypeNamesRule.ts:28-39 | under such a wording, two findings on names that render to the same diagnostic are the same finding |
| `UniqueDirectiveNames.UniqueDirectiveNamesRule.constructor` | src/validation/rules/UniqueDirectiveNamesRule.ts:10-14 | a rule instance starts with its own empty table and reads the schema's directive names once |
| `UniqueDirectiveNames.UniqueDirectiveNamesRule.DirectiveDefinition` | src/validation/rules/UniqueDirectiveNamesRule.ts:17-38 | the handler's new table, skip signal and appended diagnostic are those of `Check`, rendered with the directive messages; the table stays the fold over all names seen |
| `UniqueDirectiveNames.RepeatedDirectiveName` | src/validation/rules/UniqueDirectiveNamesRule.ts:28-35 | N definitions of one directive name absent from the schema report exactly N - 1 "There can be only one directive named" diagnostics with nodes [first, k+1-th] |
| `UniqueDirectiveNames.RedefinedSchemaDirective` | src/validation/rules/UniqueDirectiveNamesRule.ts:20-26 | N definitions of a schema directive report N "already exists in the schema. It cannot be redefined." diagnostics, each on its own name node |
| `UniqueDirectiveNames.TypeAndDirectiveDoNotCollide` | src/validation/rules/UniqueDirectiveNamesRule.ts:13-17 | a type and a directive of the same name, each handled by its own rule on one context whose schema (if any) defines neither name, report nothing: the tables are separate |
| `TypeDefinition.GetNamedType` | src/validation/rules/custom/NoDeprecatedCustomRule.ts:55 | `getNamedType` yields a named type exactly when it is given a type |
| `TypeDefinition.UnwrapWrap` | src/validation/rules/custom/NoDeprecatedCustomRule.ts:55 | unwrapping any stack of List/NonNull wrappers gives back the named type inside |
| `TypeDefinition.WrapWrappers` | src/validation/rules/custom/NoDeprecatedCustomRule.ts:71 | every type is its named type inside its wrappers, so unwrapping loses only wrappers |
| `Templates.MatchFill` | src/validation/rules/custom/NoDeprecatedCustomRule.ts:28 | reading a filled template literal gives back exactly the values spliced in, whenever no value contains the character that closes its slot |
| `Templates.MatchSound` | src/validation/rules/custom/NoDeprecatedCustomRule.ts:28 | whatever a template reads out of a message, filling the template with it rebuilds that message exactly |
| `NoDeprecated.FieldRule` | src/validation/rules/custom/NoDeprecatedCustomRule.ts:21-32 | no report iff the field definition is absent or has no reason (an empty reason counts); a fault, never a report, iff it is deprecated and the parent type is absent; a report is on the field node, its message is exactly the template filled with parent type, field and reason, and it reads back to them |
| `NoDeprecated.ArgumentRule` | src/validation/rules/custom/NoDeprecatedCustomRule.ts:33-53 | no report iff the argument is absent or not deprecated; with a current directive exactly the directive-form message filled with directive, argument and reason (reading back to them); otherwise a fault iff parent type or field is absent, else exactly the field-form message filled with parent type, field, argument and reason (reading back to them); always on the argument node |
| `NoDeprecated.ObjectFieldRule` | src/validation/rules/custom/NoDeprecatedCustomRule.ts:54-66 | never a fault; a report iff the named parent input type is an input object type that has a deprecated field of that name; its message is exactly the template filled with type, field and reason, and reads back to them |
| `NoDeprecated.EnumValueRule` | src/validation/rules/custom/NoDeprecatedCustomRule.ts:67-78 | no report iff the enum value is absent or not deprecated; a fault iff it is deprecated and the input type is absent; a report's message is exactly the template filled with the unwrapped input type, the value and the reason, and reads back to them |
| `NoDeprecated.WrappersDoNotMatter` | src/validation/rules/custom/NoDeprecatedCustomRule.ts:54-78 | the input-field and enum-value handlers give the same outcome whatever List/NonNull wrappers surround the named type |
| `NoDeprecated.DeprecatedFieldExample` | src/validation/rules/custom/NoDeprecatedCustomRule.ts:27-30 | field `bar` of `Foo` deprecated for "use baz" is reported as exactly `The field Foo.bar is deprecated. use baz` on the field node |
| `NoDeprecated.FieldMessageDecodes` | src/validation/rules/custom/NoDeprecatedCustomRule.ts:28 | the field message is its template literal filled with its values, and reads back to parent type, field and reason when the names are GraphQL names |
| `NoDeprecated.DirectiveArgumentMessageDecodes` | src/validation/rules/custom/NoDeprecatedCustomRule.ts:40 | the directive-argument message is its template literal filled with its values, and reads back to directive, argument and reason when the names are GraphQL names |
| `NoDeprecated.FieldArgumentMessageDecodes` | src/validation/rules/custom/NoDeprecatedCustomRule.ts:48 | the field-argument message is its template literal filled with its values, and reads back to parent type, field, argument and reason when the names are GraphQL names |
| `NoDeprecated.InputFieldMessageDecodes` | src/validation/rules/custom/NoDeprecatedCustomRule.ts:61 | the input-field message is its template literal filled with its values, and reads back to input type, field and reason when the names are GraphQL names |
| `NoDeprecated.EnumValueMessageDecodes` | src/validation/rules/custom/NoDeprecatedCustomRule.ts:74 | the enum-value message is its template literal filled with its values, and reads back to enum type, value and reason when the names are GraphQL names |
| `NoDeprecated.Emitted` | src/validation/rules/custom/NoDeprecatedCustomRule.ts:19-80 | a handler call appends at most one diagnostic |
| `NoDeprecated.NoDeprecatedCustomRule.Field` | src/validation/rules/custom/NoDeprecatedCustomRule.ts:21-32 | reads the context's current definitions, appends exactly what `FieldRule` reports and changes nothing else; returns no skip signal |
| `NoDeprecated.NoDeprecatedCustomRule.Argument` | src/validation/rules/custom/NoDeprecatedCustomRule.ts:33-53 | appends exactly what `ArgumentRule` reports |
| `NoDeprecated.NoDeprecatedCustomRule.ObjectField` | src/validation/rules/custom/NoDeprecatedCustomRule.ts:54-66 | appends exactly what `ObjectFieldRule` reports |
| `NoDeprecated.NoDeprecatedCustomRule.EnumValue` | src/validation/rules/custom/NoDeprecatedCustomRule.ts:67-78 | appends exactly what `EnumValueRule` reports |

## Left out

- The traversal engine (visitor dispatch, enter/leave, acting on the skip
  signal) is external: the handlers are modelled as methods the traversal
  calls, and the six-kind dispatch of the type-name rule as one method taking
  any of the six kinds. The document-level lemmas take the sequence of
  definitions in traversal order as their input.
- The positional tracking behind `getFieldDef`, `getParentType`,
  `getArgument`, `getDirective`, `getParentInputType`, `getInputType` and
  `getEnumValue` is not part of this model: their values are a `TypeInfo`
  field of the context that the traversal keeps up to date.
- The schema object model is reduced to the sets of names `getType` and
  `getDirective` resolve, and the type system to named types with a kind,
  List/NonNull wrappers and definitions with an optional deprecation reason.
- `GraphQLError` construction, source locations and printing: a diagnostic
  is its message and the identities of the nodes it blames.
- `invariant` throwing is the `InvariantViolation` outcome, which reports
  nothing; the end of the validation run it causes is not modelled.
- The handlers of the deprecation rule return nothing to the traversal (so
  children are always visited); the model's methods return the `Outcome`
  instead, which has no skip value.
- The source's tables store the name node itself; the model stores its
  identity. A stored node is always truthy, so the source's truthiness test
  is key membership here.
