/**
  The resource-schema rules of the breaking-change detector: each rule is a
  value with a display name, a rationale, a message template, a stable
  identifier and an optional automated check over an old and a new schema
  (a map from field name to field schema). The registry lists three rules; only
  the field-removal rule has a check.
 */
module Rules {
  import opened TextReplace

  datatype Option<T> = None | Some(value: T)

  /** The automated checks a resource-schema rule can carry. */
  datatype Check = RemovingAFieldCheck

  /** The interface type the detector enumerates; this file contributes resource-schema rules. */
  datatype Rule = ResourceSchema(schemaRule: ResourceSchemaRule)

  /** Placeholders a message template may use. */
  const ResourceToken: string := "{{resource}}"
  const FieldToken: string := "{{field}}"

  /** A name as `Message` inserts it: wrapped in backticks. */
  function Quote(s: string): (r: string)
    ensures |r| == |s| + 2 && r[0] == '`' && r[|r| - 1] == '`'
    ensures r[1..|r| - 1] == s
  {
    "`" + s + "`"
  }

  /** The template with every resource placeholder substituted first, then every field placeholder. */
  function Rendered(template: string, resource: string, field: string): string {
    ReplaceAll(ReplaceAll(template, ResourceToken, Quote(resource)), FieldToken, Quote(field))
  }

  /** No name appears twice. */
  predicate NoDuplicates(s: seq<string>) {
    forall i, j :: 0 <= i < j < |s| ==> s[i] != s[j]
  }

  /**
    `fields` is a correct answer of the field-removal check: every key of
    `oldSchema` missing from `newSchema`, each once, in any order.
   */
  ghost predicate IsRemovalReport<V>(oldSchema: map<string, V>, newSchema: map<string, V>, fields: seq<string>) {
    && NoDuplicates(fields)
    && forall k :: k in fields <==> k in oldSchema && k !in newSchema
  }

  datatype ResourceSchemaRule = ResourceSchemaRule(
    name: string,
    definition: string,
    message: string,
    identifier: string,
    isRuleBreak: Option<Check>)
  {
    /** A human readable name for the rule. */
    function Name(): string { name }

    /** The rationale shown to users. */
    function Definition(): string { definition }

    /** The navigation-oriented slug used in documentation links. */
    function Identifier(): string { identifier }

    /** There is no automated check for this rule. */
    predicate Undetectable() { isRuleBreak.None? }

    /** The answers `IsRuleBreak` may give for this pair of schemas. */
    ghost predicate Reports<V>(oldSchema: map<string, V>, newSchema: map<string, V>, fields: seq<string>) {
      match isRuleBreak
      case None => fields == []
      case Some(RemovingAFieldCheck) => IsRemovalReport(oldSchema, newSchema, fields)
    }

    /**
      Renders the template for `resource` and `field`; `documentationReference`
      builds the link for a version and a rule identifier.
     */
    method Message(version: string, resource: string, field: string,
                   documentationReference: (string, string) -> string)
      returns (msg: string)
      ensures var reference := documentationReference(version, identifier);
        && |reference| <= |msg|
        && msg[|msg| - |reference|..] == reference
        && msg[..|msg| - |reference|] == Rendered(message, resource, field)
      ensures var body := msg[..|msg| - |documentationReference(version, identifier)|];
        && (!Contains(field, FieldToken) ==> !Contains(body, FieldToken))
        && (!Contains(resource, ResourceToken) && !Contains(field, ResourceToken) ==>
              !Contains(body, ResourceToken))
    {
      msg := message;
      var quotedResource := Quote(resource);
      var quotedField := Quote(field);
      msg := ReplaceAll(msg, ResourceToken, quotedResource);
      msg := ReplaceAll(msg, FieldToken, quotedField);
      ghost var body := msg;
      msg := msg + documentationReference(version, identifier);
      assert msg[..|body|] == body;
      RenderedHasNoFieldToken(message, resource, field);
      RenderedHasNoResourceToken(message, resource, field);
    }

    /** The fields violating this rule: nothing without a check, else what the check reports. */
    method IsRuleBreak<V>(oldSchema: map<string, V>, newSchema: map<string, V>)
      returns (fields: seq<string>)
      ensures Reports(oldSchema, newSchema, fields)
      ensures Undetectable() ==> fields == []
    {
      match isRuleBreak
      case None =>
        fields := [];
      case Some(RemovingAFieldCheck) =>
        fields := RemovingAField(oldSchema, newSchema);
    }
  }

  /**
    The field-removal check: the keys of `oldSchema` that `newSchema` lacks.
    Go visits map keys in an unspecified order; the loop picks any key not yet
    visited, so the order of the answer is left open.
   */
  method RemovingAField<V>(oldSchema: map<string, V>, newSchema: map<string, V>)
    returns (keysNotPresent: seq<string>)
    ensures IsRemovalReport(oldSchema, newSchema, keysNotPresent)
    ensures |keysNotPresent| <= |oldSchema|
  {
    keysNotPresent := [];
    var unvisited := oldSchema.Keys;
    while unvisited != {}
      invariant unvisited <= oldSchema.Keys
      invariant NoDuplicates(keysNotPresent)
      invariant forall k :: k in keysNotPresent <==> k in oldSchema && k !in unvisited && k !in newSchema
      decreases unvisited
    {
      var key :| key in unvisited;
      unvisited := unvisited - {key};
      if key !in newSchema {
        keysNotPresent := keysNotPresent + [key];
      }
    }
    RemovalReportSize(oldSchema, newSchema, keysNotPresent);
  }

  /** Wraps each resource-schema rule as a generic `Rule`, keeping length and order. */
  method ResourceSchemaRulesToRuleArray(rss: seq<ResourceSchemaRule>) returns (rules: seq<Rule>)
    ensures |rules| == |rss|
    ensures forall i :: 0 <= i < |rss| ==> rules[i] == ResourceSchema(rss[i])
  {
    rules := [];
    for i := 0 to |rss|
      invariant |rules| == i
      invariant forall j :: 0 <= j < i ==> rules[j] == ResourceSchema(rss[j])
    {
      rules := rules + [ResourceSchema(rss[i])];
    }
  }

  /** The plain text of the field-removal template around its two placeholders. */
  const RemovalLead: string := "Field "
  const RemovalMiddle: string := " within resource "
  const RemovalTail: string := " was either removed or renamed"

  /** The field-removal template, "Field {{field}} within resource {{resource}} was either removed or renamed". */
  const RemovalMessage: string := RemovalLead + FieldToken + RemovalMiddle + ResourceToken + RemovalTail

  const RemovingAFieldRule: ResourceSchemaRule := ResourceSchemaRule(
    "Removing or Renaming an field",
    "In terraform fields should be retained whenever possible. A removable of an field will result in a configuration breakage wherever a dependency on that field exists. Renaming or Removing a field are functionally equivalent in terms of configuration breakages.",
    RemovalMessage,
    "resource-schema-field-removal-or-rename",
    Some(RemovingAFieldCheck))

  const ChangingResourceIdFormatRule: ResourceSchemaRule := ResourceSchemaRule(
    "Changing resource ID format",
    "Terraform uses resource ID to read resource state from the api. Modification of the ID format will break the ability to parse the IDs from any deployments.",
    "",
    "resource-id",
    None)

  const ChangingImportIdFormatRule: ResourceSchemaRule := ResourceSchemaRule(
    "Changing resource ID import format",
    "Automation external to our provider may rely on importing resources with a certain format. Removal or modification of existing formats will break this automation.",
    "",
    "resource-import-format",
    None)

  /** The registry, in report order. */
  const ResourceSchemaRules: seq<ResourceSchemaRule> :=
    [RemovingAFieldRule, ChangingResourceIdFormatRule, ChangingImportIdFormatRule]

  // ---------------------------------------------------------------------------
  // Field removal

  /** Distinct names are as many as the set they form. */
  lemma {:induction false} NoDuplicatesCardinality(s: seq<string>)
    requires NoDuplicates(s)
    ensures |set k | k in s| == |s|
  {
    if s != [] {
      NoDuplicatesCardinality(s[1..]);
      assert (set k | k in s) == {s[0]} + (set k | k in s[1..]);
    }
  }

  /** Distinct names have the multiset of the set they form. */
  lemma {:induction false} NoDuplicatesMultiset(s: seq<string>)
    requires NoDuplicates(s)
    ensures multiset(s) == multiset(set k | k in s)
  {
    if s != [] {
      NoDuplicatesMultiset(s[1..]);
      assert s == [s[0]] + s[1..];
      assert (set k | k in s) == {s[0]} + (set k | k in s[1..]);
      assert s[0] !in (set k | k in s[1..]);
    }
  }

  /** A report holds each removed key once: as many entries as removed keys, at most `|oldSchema|`. */
  lemma RemovalReportSize<V>(oldSchema: map<string, V>, newSchema: map<string, V>, fields: seq<string>)
    requires IsRemovalReport(oldSchema, newSchema, fields)
    ensures |fields| == |oldSchema.Keys - newSchema.Keys| <= |oldSchema|
  {
    NoDuplicatesCardinality(fields);
    assert (set k | k in fields) == oldSchema.Keys - newSchema.Keys;
    assert oldSchema.Keys - newSchema.Keys <= oldSchema.Keys;
  }

  /** Any two reports for the same schemas are permutations of each other and of the removed keys. */
  lemma RemovalReportsArePermutations<V>(oldSchema: map<string, V>, newSchema: map<string, V>,
                                         fields: seq<string>, fields': seq<string>)
    requires IsRemovalReport(oldSchema, newSchema, fields)
    requires IsRemovalReport(oldSchema, newSchema, fields')
    ensures multiset(fields) == multiset(oldSchema.Keys - newSchema.Keys) == multiset(fields')
  {
    NoDuplicatesMultiset(fields);
    NoDuplicatesMultiset(fields');
    assert (set k | k in fields) == oldSchema.Keys - newSchema.Keys;
    assert (set k | k in fields') == oldSchema.Keys - newSchema.Keys;
  }

  /** When every old key survives (in particular when the schema is unchanged), nothing is reported. */
  lemma RemovalReportEmptyWhenKeysKept<V>(oldSchema: map<string, V>, newSchema: map<string, V>, fields: seq<string>)
    requires oldSchema.Keys <= newSchema.Keys
    requires IsRemovalReport(oldSchema, newSchema, fields)
    ensures fields == []
  {
    assert oldSchema.Keys - newSchema.Keys == {};
    RemovalReportSize(oldSchema, newSchema, fields);
  }

  /** Only key membership matters: schema values never change the verdict. */
  lemma RemovalReportIgnoresValues<V>(oldSchema: map<string, V>, newSchema: map<string, V>,
                                      oldSchema': map<string, V>, newSchema': map<string, V>,
                                      fields: seq<string>)
    requires oldSchema.Keys == oldSchema'.Keys && newSchema.Keys == newSchema'.Keys
    ensures IsRemovalReport(oldSchema, newSchema, fields) <==> IsRemovalReport(oldSchema', newSchema', fields)
  {
  }

  /** The removed `size` field is the whole report (values stand in for field schemas). */
  lemma RemovalReportOneRemoved(fields: seq<string>)
    requires IsRemovalReport(map["name" := 0, "size" := 1], map["name" := 0], fields)
    ensures fields == ["size"]
  {
    var oldSchema, newSchema := map["name" := 0, "size" := 1], map["name" := 0];
    assert oldSchema.Keys - newSchema.Keys == {"size"};
    RemovalReportSize(oldSchema, newSchema, fields);
    assert fields[0] in fields;
  }

  /** An added field is not a breaking change. */
  lemma RemovalReportAdditionsOnly(fields: seq<string>)
    requires IsRemovalReport(map["a" := 0], map["a" := 0, "b" := 0], fields)
    ensures fields == []
  {
    RemovalReportEmptyWhenKeysKept(map["a" := 0], map["a" := 0, "b" := 0], fields);
  }

  // ---------------------------------------------------------------------------
  // Rule dispatch

  /** A rule without a check reports nothing for any schemas; with one it reports what the check does. */
  lemma ReportsDispatch<V>(rule: ResourceSchemaRule, oldSchema: map<string, V>, newSchema: map<string, V>,
                           fields: seq<string>)
    ensures rule.Undetectable() ==> (rule.Reports(oldSchema, newSchema, fields) <==> fields == [])
    ensures rule.isRuleBreak == Some(RemovingAFieldCheck) ==>
      (rule.Reports(oldSchema, newSchema, fields) <==> IsRemovalReport(oldSchema, newSchema, fields))
  {
  }

  /** Against an empty old schema (so also for two empty schemas), every rule reports nothing. */
  lemma EmptyOldSchemaReportsNothing<V>(rule: ResourceSchemaRule, oldSchema: map<string, V>,
                                        newSchema: map<string, V>, fields: seq<string>)
    requires oldSchema == map[]
    requires rule.Reports(oldSchema, newSchema, fields)
    ensures fields == []
  {
    if !rule.Undetectable() {
      RemovalReportEmptyWhenKeysKept(oldSchema, newSchema, fields);
    }
  }

  // ---------------------------------------------------------------------------
  // Message rendering

  /** The backticks fencing a quoted name are not part of any placeholder. */
  lemma QuotedAvoids(s: string, t: string)
    requires t == ResourceToken || t == FieldToken
    requires !Contains(s, t)
    ensures |Quote(s)| > 0 && Quote(s)[0] !in t && Quote(s)[|Quote(s)| - 1] !in t
    ensures !Contains(Quote(s), t)
  {
    ShortAbsent("`", t);
    ContainsConcat("`", s, t);
    ContainsConcat("`" + s, "`", t);
    assert Quote(s) == ("`" + s) + "`";
  }

  /** Unless the field name brings one along, no field placeholder is left. */
  lemma RenderedHasNoFieldToken(template: string, resource: string, field: string)
    ensures !Contains(field, FieldToken) ==> !Contains(Rendered(template, resource, field), FieldToken)
  {
    if !Contains(field, FieldToken) {
      QuotedAvoids(field, FieldToken);
      ReplaceRemovesPattern(ReplaceAll(template, ResourceToken, Quote(resource)), FieldToken, Quote(field));
    }
  }

  /** Unless the resource or field name brings one along, no resource placeholder is left. */
  lemma RenderedHasNoResourceToken(template: string, resource: string, field: string)
    ensures !Contains(resource, ResourceToken) && !Contains(field, ResourceToken) ==>
      !Contains(Rendered(template, resource, field), ResourceToken)
  {
    if !Contains(resource, ResourceToken) && !Contains(field, ResourceToken) {
      QuotedAvoids(resource, ResourceToken);
      QuotedAvoids(field, ResourceToken);
      var step := ReplaceAll(template, ResourceToken, Quote(resource));
      ReplaceRemovesPattern(template, ResourceToken, Quote(resource));
      ReplaceKeepsAbsent(step, FieldToken, Quote(field), ResourceToken);
    }
  }

  /** A template without placeholders is rendered unchanged. */
  lemma RenderedPlainTemplate(template: string, resource: string, field: string)
    requires !Contains(template, ResourceToken) && !Contains(template, FieldToken)
    ensures Rendered(template, resource, field) == template
  {
    AbsentIsFixed(template, ResourceToken, Quote(resource));
    AbsentIsFixed(template, FieldToken, Quote(field));
  }

  /** Facts about the two placeholders that the rendering proofs rely on. */
  lemma TokenFacts()
    ensures |FieldToken| < |ResourceToken| && ResourceToken[0] == '{' && FieldToken[0] == '{'
    ensures ' ' !in ResourceToken && ' ' !in FieldToken && '`' !in ResourceToken && '`' !in FieldToken
  {
  }

  /** Regrouping of a template with two substituted parts. */
  lemma RegroupTemplate(a: string, f: string, b: string, r: string, c: string)
    ensures a + f + b + r + c == (a + (f + b)) + (r + c)
  {
  }

  /** Regrouping of a template whose second substituted part is quoted. */
  lemma RegroupQuoted(a: string, f: string, b: string, q: char, y: string, c: string)
    ensures a + f + b + ([q] + y + [q]) + c == (a + (f + b)) + ([q] + (y + ([q] + c)))
  {
  }

  /**
    Substituting `rep` for `rt` in a template `a ft b rt c` whose plain
    fragments lack the first character of `rt` and are fenced by characters
    `rt` does not use; the shorter `ft` is left alone.
   */
  lemma TemplateFirstStep(a: string, b: string, c: string, ft: string, rt: string, rep: string)
    requires 0 < |ft| < |rt|
    requires |a| > 0 && a[|a| - 1] !in rt && |b| > 0 && b[0] !in rt && b[|b| - 1] !in rt
    requires rt[0] !in a && rt[0] !in b && rt[0] !in c
    ensures ReplaceAll(a + ft + b + rt + c, rt, rep) == a + ft + b + rep + c
  {
    var head := a + (ft + b);
    assert ReplaceAll(head, rt, rep) == head by {
      FirstCharAbsent(a, rt);
      ShortAbsent(ft, rt);
      FirstCharAbsent(b, rt);
      ContainsConcat(ft, b, rt);
      ContainsConcat(a, ft + b, rt);
      AbsentIsFixed(head, rt, rep);
    }
    assert ReplaceAll(rt + c, rt, rep) == rep + c by {
      ReplaceAtFront(rt, c, rep);
      FirstCharAbsent(c, rt);
      AbsentIsFixed(c, rt, rep);
    }
    assert head[|head| - 1] == b[|b| - 1];
    ReplaceAllConcat(head, rt + c, rt, rep);
    RegroupTemplate(a, ft, b, rt, c);
    RegroupTemplate(a, ft, b, rep, c);
  }

  /**
    Substituting `rep` for `ft` afterwards in `a ft b q x q c`, where the quote
    character `q` is not used by `ft`: the template's `ft` and every `ft`
    inside `x` are replaced.
   */
  lemma TemplateSecondStep(a: string, b: string, c: string, ft: string, q: char, x: string, rep: string)
    requires 0 < |ft| && q !in ft
    requires |a| > 0 && a[|a| - 1] !in ft && |b| > 0 && b[|b| - 1] !in ft
    requires ft[0] !in a && ft[0] !in b && ft[0] !in c
    ensures ReplaceAll(a + ft + b + ([q] + x + [q]) + c, ft, rep)
         == a + rep + b + ([q] + ReplaceAll(x, ft, rep) + [q]) + c
  {
    var head := a + (ft + b);
    var quoted := [q] + (x + ([q] + c));
    assert ReplaceAll(head, ft, rep) == a + (rep + b) by {
      FirstCharAbsent(a, ft);
      AbsentIsFixed(a, ft, rep);
      ReplaceAllConcat(a, ft + b, ft, rep);
      ReplaceAtFront(ft, b, rep);
      FirstCharAbsent(b, ft);
      AbsentIsFixed(b, ft, rep);
    }
    assert ReplaceAll(quoted, ft, rep) == [q] + (ReplaceAll(x, ft, rep) + ([q] + c)) by {
      ReplaceAllConcat([q], x + ([q] + c), ft, rep);
      FirstCharAbsent([q], ft);
      AbsentIsFixed([q], ft, rep);
      ReplaceAllConcat(x, [q] + c, ft, rep);
      FirstCharAbsent([q] + c, ft);
      AbsentIsFixed([q] + c, ft, rep);
    }
    assert head[|head| - 1] == b[|b| - 1];
    ReplaceAllConcat(head, quoted, ft, rep);
    RegroupQuoted(a, ft, b, q, x, c);
    RegroupQuoted(a, rep, b, q, ReplaceAll(x, ft, rep), c);
  }

  /** The plain fragments of the field-removal template carry no placeholder and end in spaces. */
  lemma RemovalFragmentFacts()
    ensures |RemovalLead| > 0 && RemovalLead[|RemovalLead| - 1] == ' ' && '{' !in RemovalLead
    ensures |RemovalMiddle| > 0 && RemovalMiddle[0] == ' ' && RemovalMiddle[|RemovalMiddle| - 1] == ' '
    ensures '{' !in RemovalMiddle
    ensures '{' !in RemovalTail
  {
  }

  /** The first half of the field-removal template, up to the resource placeholder. */
  lemma RemovalTemplateFront()
    ensures RemovalLead + (FieldToken + RemovalMiddle) == "Field {{field}} within resource "
  {
  }

  /** The second half of the field-removal template, from the resource placeholder on. */
  lemma RemovalTemplateBack()
    ensures ResourceToken + RemovalTail == "{{resource}} was either removed or renamed"
  {
  }

  /** The field-removal template spells out the literal text of the rule. */
  lemma RemovalTemplateText()
    ensures RemovingAFieldRule.message
         == "Field {{field}} within resource " + "{{resource}} was either removed or renamed"
  {
    RegroupTemplate(RemovalLead, FieldToken, RemovalMiddle, ResourceToken, RemovalTail);
    RemovalTemplateFront();
    RemovalTemplateBack();
  }

  /**
    The field-removal message names the quoted field and the quoted resource,
    in which field placeholders have been substituted too.
   */
  lemma RemovalRuleRendered(resource: string, field: string)
    ensures Rendered(RemovingAFieldRule.message, resource, field)
         == RemovalLead + Quote(field) + RemovalMiddle + Quote(ReplaceAll(resource, FieldToken, Quote(field))) + RemovalTail
  {
    RemovalFragmentFacts();
    TokenFacts();
    TemplateFirstStep(RemovalLead, RemovalMiddle, RemovalTail, FieldToken, ResourceToken, Quote(resource));
    assert Quote(resource) == ['`'] + resource + ['`'];
    TemplateSecondStep(RemovalLead, RemovalMiddle, RemovalTail, FieldToken, '`', resource, Quote(field));
  }

  /** With a resource name free of `{{field}}`, the message reads exactly as the template says. */
  lemma RemovalRuleRenderedPlain(resource: string, field: string)
    requires !Contains(resource, FieldToken)
    ensures Rendered(RemovingAFieldRule.message, resource, field)
         == RemovalLead + Quote(field) + RemovalMiddle + Quote(resource) + RemovalTail
  {
    RemovalRuleRendered(resource, field);
    AbsentIsFixed(resource, FieldToken, Quote(field));
  }

  // ---------------------------------------------------------------------------
  // The registry

  /** The registry lists removal, resource-id and import-format, and only the first has a check. */
  lemma RegistryContents()
    ensures |ResourceSchemaRules| == 3
    ensures ResourceSchemaRules[0].Identifier() == "resource-schema-field-removal-or-rename"
    ensures ResourceSchemaRules[1].Identifier() == "resource-id"
    ensures ResourceSchemaRules[2].Identifier() == "resource-import-format"
    ensures ResourceSchemaRules[0].Name() == "Removing or Renaming an field"
    ensures ResourceSchemaRules[1].Name() == "Changing resource ID format"
    ensures ResourceSchemaRules[2].Name() == "Changing resource ID import format"
    ensures !ResourceSchemaRules[0].Undetectable()
    ensures ResourceSchemaRules[1].Undetectable() && ResourceSchemaRules[2].Undetectable()
  {
  }

  /** No two registered rules share an identifier. */
  lemma RegistryIdentifiersDistinct()
    ensures forall i, j :: 0 <= i < j < |ResourceSchemaRules| ==>
      ResourceSchemaRules[i].Identifier() != ResourceSchemaRules[j].Identifier()
  {
  }

  /** Every registered rule is detectable exactly when it carries the field-removal check. */
  lemma RegistryDetectability(rule: ResourceSchemaRule)
    requires rule in ResourceSchemaRules
    ensures rule.Undetectable() <==> rule.Identifier() != "resource-schema-field-removal-or-rename"
    ensures !rule.Undetectable() <==> rule.isRuleBreak == Some(RemovingAFieldCheck)
  {
  }

  /** The undetectable rules have an empty template, so their message is the documentation reference alone. */
  lemma UndetectableRegistryMessages(resource: string, field: string)
    ensures Rendered(ChangingResourceIdFormatRule.message, resource, field) == ""
    ensures Rendered(ChangingImportIdFormatRule.message, resource, field) == ""
  {
  }
}
