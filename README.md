# Resource-schema rules of the breaking-change detector, in Dafny

This project models the resource-schema rule catalogue of the
breaking-change detector (package `rules`), and proves properties of it.
The detector compares an old and a new Terraform resource schema, meaning a
map from field name to field schema. It reports changes that break existing
configurations.

The model's parts:

- `ResourceSchemaRule` is a datatype with the record's five fields.
  - Its optional check function is an `Option<Check>`. `Check` lists the
    checks that exist. Today that is only the field-removal check.
  - `Name`, `Definition` and `Identifier` are plain field projections.
  - `Undetectable` holds exactly when no check is present.
  - `IsRuleBreak` dispatches on that option.
  - `Message` renders the message template.
- `RemovingAField` is the field-removal check. It is imperative, like the
  source: a loop over the keys of the old schema that appends every key the
  new schema lacks.
  - Go visits map keys in an unspecified order. The loop therefore picks any
    key it has not visited yet, and its contract fixes the answer only up to
    order.
  - `IsRemovalReport` is the specification: no duplicates, and membership
    exactly when a key is in the old schema and not in the new one.
  - The lemmas beside it prove that the report's length is the number of
    removed keys, that two reports are permutations of each other, that the
    report is empty when no key disappears, and that schema values are never
    looked at.
- `Message` reassigns its locals step by step, as the source does.
  - Its contract ties the result to `Rendered`: every `{{resource}}` is
    replaced by the backtick-quoted resource, then every `{{field}}` by the
    backtick-quoted field. The documentation reference comes last.
  - `ReplaceAll` in module `TextReplace` models Go's `strings.ReplaceAll`. It
    scans left to right, does not overlap matches, and never rescans the text
    it inserts. The lemmas there are about occurrences of a pattern across
    concatenation and replacement.
- `ResourceSchemaRules` is the registry of the three rules, in the source's
  order. `ResourceSchemaRulesToRuleArray` copies it, loop and all, into the
  generic `Rule` type.

The removal rule's template is built from its plain fragments and the two
placeholders. `RemovalTemplateText` proves that it equals the literal text
of the rule, "Field {{field}} within resource {{resource}} was either removed
or renamed", written in two halves.

How the text is replaced:

- Each replacement replaces every occurrence of its placeholder.
- The removal template holds each placeholder once.
- The field replacement runs second, so it also replaces `{{field}}`
  occurrences inside the resource name inserted just before.
  `RemovalRuleRendered` gives the exact text for the removal rule.
- So the message is free of `{{field}}` whenever the field does not contain
  `{{field}}`.
- It is free of `{{resource}}` only if neither the resource nor the field
  contains `{{resource}}`.

## Model

| member | source | states |
|---|---|---|
| `Rules.RemovingAField` | tools/breaking-change-detector/rules/rules_resource_schema.go:44-53 | Returns each key of the old schema that the new schema lacks, exactly once. No other key appears, in whatever order the keys are visited. The answer has at most `|old|` entries. |
| `Rules.RemovalReportSize` | tools/breaking-change-detector/rules/rules_resource_schema.go:45-52 | Any correct field-removal answer has exactly as many entries as there are removed keys, and no more than the old schema has keys. |
| `Rules.RemovalReportsArePermutations` | tools/breaking-change-detector/rules/rules_resource_schema.go:46-52 | Any two correct answers for the same schemas, in whatever iteration order, have the same multiset of names. That multiset is the set difference of the key sets. |
| `Rules.RemovalReportEmptyWhenKeysKept` | tools/breaking-change-detector/rules/rules_resource_schema.go:45-52 | When every old key is still a key of the new schema, the answer is empty. This includes comparing a schema with itself. |
| `Rules.RemovalReportIgnoresValues` | tools/breaking-change-detector/rules/rules_resource_schema.go:46-49 | Whether an answer is correct depends only on the two key sets, never on the field schemas stored under them. |
| `Rules.RemovalReportOneRemoved` | tools/breaking-change-detector/rules/rules_resource_schema.go:44-53 | Old `{name, size}` against new `{name}`: the only correct answer is `["size"]`. |
| `Rules.RemovalReportAdditionsOnly` | tools/breaking-change-detector/rules/rules_resource_schema.go:44-53 | Old `{a}` against new `{a, b}`: the answer is empty, because an added field is not reported. |
| `Rules.ResourceSchemaRule.IsRuleBreak` | tools/breaking-change-detector/rules/rules_resource_schema.go:91-96 | With no check it returns the empty list. With the field-removal check it returns a correct field-removal answer. |
| `Rules.ReportsDispatch` | tools/breaking-change-detector/rules/rules_resource_schema.go:91-96 | For an undetectable rule, the empty list is the only possible result, for any schemas. For a rule with the removal check, the possible results are exactly the check's correct answers. |
| `Rules.EmptyOldSchemaReportsNothing` | tools/breaking-change-detector/rules/rules_resource_schema.go:44-53 | Against an empty old schema, including when both schemas are empty, every rule reports nothing. |
| `Rules.ResourceSchemaRule.Message` | tools/breaking-change-detector/rules/rules_resource_schema.go:80-87 | The result is the rendered template followed by the documentation reference for the version and the rule's identifier, so it always ends with that reference. The rendered part has no `{{field}}` unless the field has one. It has no `{{resource}}` unless the resource or the field has one. |
| `Rules.Quote` | tools/breaking-change-detector/rules/rules_resource_schema.go:82-83 | The quoted name is two characters longer than the name. It starts and ends with a backtick, and the name is what lies between them. |
| `Rules.Rendered` | tools/breaking-change-detector/rules/rules_resource_schema.go:84-85 | The resource placeholders are replaced by the quoted resource, and then the field placeholders by the quoted field. What it guarantees is proved in `Rules.RenderedHasNoFieldToken`, `Rules.RenderedHasNoResourceToken`, `Rules.RenderedPlainTemplate` and `Rules.RemovalRuleRendered`. |
| `Rules.RenderedHasNoFieldToken` | tools/breaking-change-detector/rules/rules_resource_schema.go:82-85 | For any template and resource: if the field does not contain `{{field}}`, the rendered text does not either. |
| `Rules.RenderedHasNoResourceToken` | tools/breaking-change-detector/rules/rules_resource_schema.go:82-85 | For any template: if neither the resource nor the field contains `{{resource}}`, the rendered text does not. |
| `Rules.RenderedPlainTemplate` | tools/breaking-change-detector/rules/rules_resource_schema.go:84-85 | A template with no placeholder is rendered unchanged. |
| `Rules.RemovalRuleRendered` | tools/breaking-change-detector/rules/rules_resource_schema.go:84-85 | For the removal template of line 39, the rendered text is "Field `F` within resource `R'` was either removed or renamed". `R'` is the resource with each of its own `{{field}}` occurrences replaced by the quoted field. |
| `Rules.RemovalRuleRenderedPlain` | tools/breaking-change-detector/rules/rules_resource_schema.go:84-85 | If the resource has no `{{field}}`, the removal message reads "Field `F` within resource `R` was either removed or renamed". |
| `Rules.RemovalTemplateText` | tools/breaking-change-detector/rules/rules_resource_schema.go:39 | The field-removal rule's template equals the literal "Field {{field}} within resource " followed by "{{resource}} was either removed or renamed". |
| `Rules.ResourceSchemaRulesToRuleArray` | tools/breaking-change-detector/rules/rules_resource_schema.go:55-61 | The result has the input's length, and entry `i` wraps input rule `i`. |
| `Rules.RegistryContents` | tools/breaking-change-detector/rules/rules_resource_schema.go:22-42 | The registry holds three rules. In order their identifiers are field removal, `resource-id` and `resource-import-format`, and their names are as declared. Only the first has a check. |
| `Rules.RegistryIdentifiersDistinct` | tools/breaking-change-detector/rules/rules_resource_schema.go:22-42 | No two registered rules share an identifier. |
| `Rules.RegistryDetectability` | tools/breaking-change-detector/rules/rules_resource_schema.go:100-102 | A registered rule is undetectable exactly when it has no check. That is every rule except `resource-schema-field-removal-or-rename`. |
| `Rules.UndetectableRegistryMessages` | tools/breaking-change-detector/rules/rules_resource_schema.go:24-34 | The two undetectable rules declare no message, so their template renders to the empty string. With the contract of `Message`, their message is then the documentation reference alone. |
| `Rules.ResourceSchemaRule.Name` | tools/breaking-change-detector/rules/rules_resource_schema.go:63-66 | Returns the rule's name. `Rules.RegistryContents` gives it for each registered rule. |
| `Rules.ResourceSchemaRule.Definition` | tools/breaking-change-detector/rules/rules_resource_schema.go:68-71 | Returns the rule's definition. The three registered rules carry the definitions of lines 26, 32 and 38, letter for letter. |
| `Rules.ResourceSchemaRule.Identifier` | tools/breaking-change-detector/rules/rules_resource_schema.go:73-76 | Returns the rule's identifier. `Rules.RegistryContents` and `Rules.RegistryIdentifiersDistinct` give the three identifiers and prove them distinct. |
| `Rules.ResourceSchemaRule.Undetectable` | tools/breaking-change-detector/rules/rules_resource_schema.go:100-102 | Holds exactly when the rule has no check. `Rules.RegistryDetectability` proves this and identifies the removal rule as the only detectable one. `Rules.ResourceSchemaRule.IsRuleBreak` returns the empty list for an undetectable rule. |
| `Rules.RemovingAFieldRule` | tools/breaking-change-detector/rules/rules_resource_schema.go:36-42 | The field-removal rule: its name, definition, template (see `Rules.RemovalTemplateText`), identifier, and the field-removal check. |
| `Rules.ChangingResourceIdFormatRule` | tools/breaking-change-detector/rules/rules_resource_schema.go:24-28 | The resource-id rule: its name, definition and identifier, an empty message, and no check. |
| `Rules.ChangingImportIdFormatRule` | tools/breaking-change-detector/rules/rules_resource_schema.go:30-34 | The import-format rule: its name, definition and identifier, an empty message, and no check. |
| `Rules.ResourceSchemaRules` | tools/breaking-change-detector/rules/rules_resource_schema.go:22 | The registry: the removal, resource-id and import-format rules, in that order (`Rules.RegistryContents`). |
| `TextReplace.ReplaceAll` | tools/breaking-change-detector/rules/rules_resource_schema.go:84-85 | Go's `strings.ReplaceAll` for a non-empty pattern. It scans left to right, replaces non-overlapping matches, and never rescans the text it inserts. What it promises is proved in `TextReplace.AbsentIsFixed`, `TextReplace.ReplaceRemovesPattern`, `TextReplace.ReplaceKeepsAbsent` and `TextReplace.ReplaceAllConcat`. |
| `TextReplace.AbsentIsFixed` | tools/breaking-change-detector/rules/rules_resource_schema.go:84-85 | Replacing a pattern that does not occur leaves the string unchanged. |
| `TextReplace.ReplaceRemovesPattern` | tools/breaking-change-detector/rules/rules_resource_schema.go:84-85 | Take a replacement that does not contain the pattern and begins and ends with characters the pattern does not use. After replacing with it, the pattern no longer occurs. |
| `TextReplace.ReplaceKeepsAbsent` | tools/breaking-change-detector/rules/rules_resource_schema.go:85 | Take a string free of a token `t`, and a replacement free of `t` that begins and ends with characters `t` does not use. Replacing another pattern with it creates no occurrence of `t`. |
| `TextReplace.ReplaceAllConcat` | tools/breaking-change-detector/rules/rules_resource_schema.go:84-85 | Across a seam character that the pattern does not use, replacing in `a + b` is the same as replacing in `a` and in `b` separately. |

## Left out

- The field schema type comes from the Terraform plugin SDK. It is a type parameter `V` that nothing inspects, because the check only looks at keys.
- Go's map iteration order is modelled as an arbitrary choice of the next unvisited key. Results are stated up to order, and no order is promised.
- `documentationReference` is not part of this model. `Message` takes it as a function parameter. So the model does not state that the reference is non-empty or that it contains the version and the identifier.
- The `Rule` interface is not part of this model. `Rule` is a one-variant datatype that wraps a resource-schema rule. Other rule categories are outside this file.
- `ResourceSchemaRulesToRuleArray` returns a nil slice for an empty input. The model returns the empty sequence, which Go code treats the same way.
- The `fmt.Sprintf` call that quotes a name is modelled as plain concatenation: a backtick, the name, a backtick (`Rules.Quote`).
- `TextReplace.ReplaceAll` requires a non-empty pattern. Go's behaviour for an empty pattern, inserting text between characters, is not modelled. This file only calls it with the fixed placeholders.
- Strings are sequences of characters, not bytes. The placeholders and backticks are ASCII, and ASCII bytes never occur inside a multi-byte UTF-8 sequence, so matching is the same.
- The detector is not part of this model. It drives the registry, sorts fields and builds the report, and none of that is in this file. Loading schemas and printing reports are not in it either.
- Rules are immutable values here. The source's package-level variables are modelled as constants.
