/**
 * The parser package: its two static schemas, schema matching filtered through
 * `checkDiagnostics` (`processSchema`), and the variable extractor (`processVariable`).
 */
module Parser {
  import opened Results
  import opened Hcl
  import opened DiagnosticFilter

  /** `importantBlocksSchema`: `variable` and `output` blocks, one label `name` each. */
  const ImportantBlocksSchema := BodySchema(
    [],
    [BlockHeaderSchema("variable", ["name"]), BlockHeaderSchema("output", ["name"])])

  /** `variableBlockSchema`: the one optional attribute `default`. */
  const VariableBlockSchema := BodySchema([AttributeSchema("default", false)], [])

  /** Diagnostics expected when matching a whole file against a schema. */
  const SchemaAllowed: seq<string> := ["unsupported block"]

  /** Diagnostics expected when matching a variable body: attributes not of interest. */
  const AttributeAllowed: seq<string> := ["unsupported attribute", "unsupported argument"]

  /** A variable record: the block's name and its decoded `default`, if it has one. */
  datatype ParsedVariable = ParsedVariable(name: string, default: Option<string>)

  lemma ImportantBlockTypes()
    ensures BlockTypes(ImportantBlocksSchema) == {"variable", "output"}
  {
  }

  lemma ImportantBlockLabels()
    ensures forall h :: h in ImportantBlocksSchema.blocks ==> h.labelNames == ["name"]
  {
  }

  lemma VariableAttributes()
    ensures AttributeNames(VariableBlockSchema) == ["default"]
    ensures VariableBlockSchema.blocks == []
  {
  }

  /** `default` is optional: every attribute set, including one without it, satisfies the schema. */
  lemma DefaultIsOptional(attributes: map<string, Expr>)
    ensures RequiredPresent(VariableBlockSchema, attributes)
  {
  }

  /** The schema selects exactly the `variable` and `output` blocks with exactly one label. */
  lemma SelectsImportant(b: Block)
    ensures Selects(ImportantBlocksSchema, b) <==>
            (b.blockType == "variable" || b.blockType == "output") && |b.labels| == 1
  {
  }

  /**
   * Matches `body` against `schema` and filters the diagnostics through `allowed`:
   * either the content and no diagnostics, or no content and the surviving diagnostics.
   */
  function MatchSchema(lib: Library, body: Body, schema: BodySchema, allowed: seq<string>)
    : (r: (Option<BodyContent>, seq<Diagnostic>))
    ensures (r.0.Some? && r.1 == []) || (r.0.None? && r.1 != [])
    ensures r.0.Some? <==> forall d :: d in lib.content(body, schema).1 ==> Suppressed(d, allowed)
    ensures r.0.Some? ==> r.0.value == lib.content(body, schema).0
    ensures r.0.None? ==> r.1 == CheckDiagnostics(lib.content(body, schema).1, allowed)
  {
    var (content, diags) := lib.content(body, schema);
    var kept := CheckDiagnostics(diags, allowed);
    CheckDiagnosticsEmptyIff(diags, allowed);
    if kept == [] then (Some(content), []) else (None, kept)
  }

  /** `processSchema`: a whole file's body against a schema, block types not of interest allowed. */
  function ProcessSchema(lib: Library, file: Body, schema: BodySchema): (r: (Option<BodyContent>, seq<Diagnostic>))
    ensures (r.0.Some? && r.1 == []) || (r.0.None? && r.1 != [])
    ensures r.0.Some? <==> forall d :: d in lib.content(file, schema).1 ==> Suppressed(d, SchemaAllowed)
    ensures r.0.Some? ==> r.0.value == lib.content(file, schema).0
    ensures forall d :: d in r.1 <==> d in lib.content(file, schema).1 && !Suppressed(d, SchemaAllowed)
  {
    MatchSchema(lib, file, schema, SchemaAllowed)
  }

  /**
   * `processVariable`: a block the important-blocks schema selected. A block of another
   * type is not its concern (no record, no diagnostics); a variable block yields a record
   * named by its label, or no record and the diagnostics that prevented it.
   */
  function ProcessVariable(lib: Library, b: Block): (r: (Option<ParsedVariable>, seq<Diagnostic>))
    requires Selects(ImportantBlocksSchema, b)
    ensures b.blockType != "variable" ==> r == (None, [])
    ensures b.blockType == "variable" ==> (r.0.Some? <==> r.1 == [])
    ensures r.0.Some? ==> r.0.value.name == b.labels[0]
  {
    SelectsImportant(b);
    if b.blockType != "variable" then (None, [])
    else
      var (content, diags) := MatchSchema(lib, b.body, VariableBlockSchema, AttributeAllowed);
      if content.None? then (None, diags)
      else if "default" in content.value.attributes then
        var (decodeDiags, value) := lib.decodeString(content.value.attributes["default"]);
        var kept := CheckDiagnostics(decodeDiags, []);
        if kept != [] then (None, kept)
        else (Some(ParsedVariable(b.labels[0], Some(value))), [])
      else (Some(ParsedVariable(b.labels[0], None)), [])
  }

  /**
   * A selected variable block yields a record with no diagnostics exactly when the
   * diagnostics of matching its body are all expected and its `default`, if any,
   * decodes without diagnostics; the record's `default` is then that decoded value.
   */
  lemma ProcessVariableSucceeds(lib: Library, b: Block)
    requires Selects(ImportantBlocksSchema, b) && b.blockType == "variable"
    ensures var content := lib.content(b.body, VariableBlockSchema).0;
            var r := ProcessVariable(lib, b);
            (r == (Some(ParsedVariable(b.labels[0],
                     if "default" in content.attributes
                     then Some(lib.decodeString(content.attributes["default"]).1) else None)), []))
            <==>
            (forall d :: d in lib.content(b.body, VariableBlockSchema).1 ==> Suppressed(d, AttributeAllowed)) &&
            ("default" in content.attributes ==> lib.decodeString(content.attributes["default"]).0 == [])
  {
  }
}
