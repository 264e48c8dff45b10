/**
 * `configFromFile` of the command: matches a parsed file against a schema of
 * `variable` blocks, logs the unexpected top-level diagnostics, and turns every
 * selected block into a `Variable` record, aborting the whole call on the first
 * block whose body or attributes fail to decode.
 */
module ConfigFile {
  import opened Results
  import opened Text
  import opened Sequences
  import opened Hcl
  import opened DiagnosticFilter

  /** `configFileSchema`: `variable` blocks with one label `name`; no `output` entry. */
  const ConfigFileSchema := BodySchema([], [BlockHeaderSchema("variable", ["name"])])

  /** `variableBlockSchema`: the optional attributes `description`, `type` and `sensitive`. */
  const VariableBlockSchema := BodySchema(
    [AttributeSchema("description", false), AttributeSchema("type", false), AttributeSchema("sensitive", false)],
    [])

  /** Top-level diagnostics containing this text are expected and not logged. */
  const UnsupportedBlockType := "unsupported block type"

  datatype Variable = Variable(name: string, description: string, varType: string, sensitive: bool)

  datatype Config = Config(variables: seq<Variable>)

  /** The `log.Fatal` calls, and the index panic on a block without a label. */
  datatype Error =
    | ParseConfig(diags: seq<Diagnostic>)
    | LabelIndexOutOfRange
    | BlockContent(diags: seq<Diagnostic>)
    | DescriptionAttr(diags: seq<Diagnostic>)
    | SensitiveAttr(diags: seq<Diagnostic>)
    | TypeAttr

  lemma ConfigFileBlockTypes()
    ensures BlockTypes(ConfigFileSchema) == {"variable"}
    ensures forall h :: h in ConfigFileSchema.blocks ==> h.labelNames == ["name"]
  {
  }

  lemma VariableAttributes(attributes: map<string, Expr>)
    ensures AttributeNames(VariableBlockSchema) == ["description", "type", "sensitive"]
    ensures RequiredPresent(VariableBlockSchema, attributes)
  {
  }

  /** The schema selects exactly the `variable` blocks with exactly one label. */
  lemma SelectsConfigFile(b: Block)
    ensures Selects(ConfigFileSchema, b) <==> b.blockType == "variable" && |b.labels| == 1
  {
  }

  /** The inline test of the top-level loop is the filter with the one-entry allow-list. */
  lemma InlineCheckIsFilter(d: Diagnostic)
    ensures Contains(Lower(Message(d)), UnsupportedBlockType) <==> Suppressed(d, [UnsupportedBlockType])
  {
    forall i | 0 <= i < |UnsupportedBlockType|
      ensures !('A' <= UnsupportedBlockType[i] <= 'Z')
    {
    }
    LowerOfLowercase(UnsupportedBlockType);
  }

  /** The top-level diagnostics that get logged: the errors not about an unsupported block type, in order. */
  function Logged(diags: seq<Diagnostic>): (r: seq<Diagnostic>)
    ensures forall d :: d in r ==> d in diags && d.severity == DiagError
    ensures IsSubsequence(r, diags)
  {
    if HasErrors(diags) then
      SubsequenceTransitive(CheckDiagnostics(Errs(diags), [UnsupportedBlockType]), Errs(diags), diags);
      CheckDiagnostics(Errs(diags), [UnsupportedBlockType])
    else []
  }

  /** Logged are exactly the error diagnostics whose lowered text lacks "unsupported block type". */
  lemma LoggedExactly(diags: seq<Diagnostic>, d: Diagnostic)
    ensures d in Logged(diags) <==>
            d in diags && d.severity == DiagError && !Contains(Lower(Message(d)), UnsupportedBlockType)
  {
    InlineCheckIsFilter(d);
  }

  /** The summary HCL gives a block whose type no schema declares. */
  const HclUnsupportedBlockSummary := "Unsupported block type"

  /** HCL's own diagnostic for an undeclared block type is never logged, whatever its detail says. */
  lemma HclUnsupportedBlockNotLogged(diags: seq<Diagnostic>, detail: string)
    ensures Diagnostic(DiagError, HclUnsupportedBlockSummary, detail) !in Logged(diags)
  {
    var d := Diagnostic(DiagError, HclUnsupportedBlockSummary, detail);
    assert Message(d) == HclUnsupportedBlockSummary + ("; " + detail);
    LowerConcat(HclUnsupportedBlockSummary, "; " + detail);
    assert Lower(HclUnsupportedBlockSummary) == UnsupportedBlockType;
    assert UnsupportedBlockType <= Lower(Message(d));
    LoggedExactly(diags, d);
  }

  /** The record a block decodes to, or the reason the call aborts: a record is named by the first label. */
  function DecodeBlock(lib: Library, b: Block): (r: Result<Variable, Error>)
    ensures r == Failure(LabelIndexOutOfRange) <==> |b.labels| == 0
    ensures r.Success? ==> r.value.name == b.labels[0]
  {
    if |b.labels| == 0 then Failure(LabelIndexOutOfRange)
    else
      var (content, diags) := lib.content(b.body, VariableBlockSchema);
      var attrs := content.attributes;
      if HasErrors(diags) then Failure(BlockContent(diags))
      else if "description" in attrs && HasErrors(lib.decodeString(attrs["description"]).0) then
        Failure(DescriptionAttr(lib.decodeString(attrs["description"]).0))
      else if "sensitive" in attrs && HasErrors(lib.decodeBool(attrs["sensitive"]).0) then
        Failure(SensitiveAttr(lib.decodeBool(attrs["sensitive"]).0))
      else if "type" in attrs && lib.exprAsKeyword(attrs["type"]) == "" then
        Failure(TypeAttr)
      else
        Success(Variable(
          b.labels[0],
          if "description" in attrs then lib.decodeString(attrs["description"]).1 else "",
          if "type" in attrs then lib.exprAsKeyword(attrs["type"]) else "",
          if "sensitive" in attrs then lib.decodeBool(attrs["sensitive"]).1 else false))
  }

  /** All blocks decoded in order, or the error of the first one that fails. */
  function DecodeBlocks(lib: Library, bs: seq<Block>): (r: Result<seq<Variable>, Error>)
    ensures r.Success? ==> |r.value| == |bs|
  {
    if bs == [] then Success([])
    else match DecodeBlock(lib, bs[0])
      case Failure(e) => Failure(e)
      case Success(v) =>
        match DecodeBlocks(lib, bs[1..])
        case Failure(e) => Failure(e)
        case Success(vs) => Success([v] + vs)
  }

  /** The blocks `Body.Content` returns for the file under `ConfigFileSchema`. */
  function TopBlocks(lib: Library, file: Body): seq<Block>
  {
    lib.content(file, ConfigFileSchema).0.blocks
  }

  /** What `configFromFile` returns for a parsed file: a parse failure first, else one record per matched block. */
  function Configure(lib: Library, file: Body, parseDiags: seq<Diagnostic>): (r: Result<Config, Error>)
    ensures HasErrors(parseDiags) ==> r == Failure(ParseConfig(parseDiags))
    ensures r.Success? ==> |r.value.variables| == |TopBlocks(lib, file)|
  {
    if HasErrors(parseDiags) then Failure(ParseConfig(parseDiags))
    else match DecodeBlocks(lib, TopBlocks(lib, file))
      case Failure(e) => Failure(e)
      case Success(vs) => Success(Config(vs))
  }

  lemma {:induction false} DecodeBlocksAppend(lib: Library, a: seq<Block>, b: seq<Block>)
    ensures DecodeBlocks(lib, a + b) ==
            if DecodeBlocks(lib, a).Failure? then DecodeBlocks(lib, a)
            else if DecodeBlocks(lib, b).Failure? then DecodeBlocks(lib, b)
            else Success(DecodeBlocks(lib, a).value + DecodeBlocks(lib, b).value)
  {
    if a == [] {
      assert a + b == b;
      if DecodeBlocks(lib, b).Success? {
        assert [] + DecodeBlocks(lib, b).value == DecodeBlocks(lib, b).value;
      }
    } else {
      assert (a + b)[0] == a[0];
      assert (a + b)[1..] == a[1..] + b;
      DecodeBlocksAppend(lib, a[1..], b);
      if DecodeBlock(lib, a[0]).Success? && DecodeBlocks(lib, a[1..]).Success? && DecodeBlocks(lib, b).Success? {
        var v := DecodeBlock(lib, a[0]).value;
        assert [v] + (DecodeBlocks(lib, a[1..]).value + DecodeBlocks(lib, b).value)
            == ([v] + DecodeBlocks(lib, a[1..]).value) + DecodeBlocks(lib, b).value;
      }
    }
  }

  /** A decoded prefix followed by a decodable block decodes to one more record. */
  lemma DecodeBlocksSnoc(lib: Library, prefix: seq<Block>, b: Block)
    requires DecodeBlocks(lib, prefix).Success? && DecodeBlock(lib, b).Success?
    ensures DecodeBlocks(lib, prefix + [b]) == Success(DecodeBlocks(lib, prefix).value + [DecodeBlock(lib, b).value])
  {
    DecodeBlocksAppend(lib, prefix, [b]);
    assert [b][1..] == [];
    assert DecodeBlocks(lib, [b]) == Success([DecodeBlock(lib, b).value] + []);
    assert [DecodeBlock(lib, b).value] + [] == [DecodeBlock(lib, b).value];
  }

  /** Once block `i` fails after a decoded prefix, the whole sequence fails with its error. */
  lemma DecodeBlocksStopsAt(lib: Library, bs: seq<Block>, i: int)
    requires 0 <= i < |bs|
    requires DecodeBlocks(lib, bs[..i]).Success? && DecodeBlock(lib, bs[i]).Failure?
    ensures DecodeBlocks(lib, bs) == Failure(DecodeBlock(lib, bs[i]).error)
  {
    assert bs == bs[..i] + bs[i..];
    assert bs[i..][0] == bs[i];
    DecodeBlocksAppend(lib, bs[..i], bs[i..]);
  }

  /** All or nothing: the blocks decode exactly when each of them does. */
  lemma {:induction false} DecodeBlocksAllOrNothing(lib: Library, bs: seq<Block>)
    ensures DecodeBlocks(lib, bs).Success? <==> forall i :: 0 <= i < |bs| ==> DecodeBlock(lib, bs[i]).Success?
  {
    if bs != [] {
      DecodeBlocksAllOrNothing(lib, bs[1..]);
      assert forall i :: 1 <= i < |bs| ==> bs[i] == bs[1..][i - 1];
    }
  }

  /** One record per block, in block order, each the record its block decodes to. */
  lemma {:induction false} DecodeBlocksInOrder(lib: Library, bs: seq<Block>)
    requires DecodeBlocks(lib, bs).Success?
    ensures forall i :: 0 <= i < |bs| ==> DecodeBlock(lib, bs[i]) == Success(DecodeBlocks(lib, bs).value[i])
  {
    if bs != [] {
      DecodeBlocksInOrder(lib, bs[1..]);
      assert forall i :: 1 <= i < |bs| ==> bs[i] == bs[1..][i - 1];
    }
  }

  /** A failure is the error of the first block that fails to decode. */
  lemma {:induction false} DecodeBlocksFirstFailure(lib: Library, bs: seq<Block>)
    requires DecodeBlocks(lib, bs).Failure?
    ensures exists k :: 0 <= k < |bs| && DecodeBlock(lib, bs[k]) == Failure(DecodeBlocks(lib, bs).error) &&
                        forall j :: 0 <= j < k ==> DecodeBlock(lib, bs[j]).Success?
  {
    if DecodeBlock(lib, bs[0]).Failure? {
      assert DecodeBlock(lib, bs[0]) == Failure(DecodeBlocks(lib, bs).error);
    } else {
      DecodeBlocksFirstFailure(lib, bs[1..]);
      var k :| 0 <= k < |bs[1..]| && DecodeBlock(lib, bs[1..][k]) == Failure(DecodeBlocks(lib, bs[1..]).error) &&
                forall j :: 0 <= j < k ==> DecodeBlock(lib, bs[1..][j]).Success?;
      assert forall j :: 1 <= j < k + 1 ==> bs[j] == bs[1..][j - 1];
      assert DecodeBlock(lib, bs[k + 1]) == Failure(DecodeBlocks(lib, bs).error);
    }
  }

  /**
   * A decoded record is named by the block's first label; an attribute that is absent
   * leaves its field at the zero value, and a present `type` is a non-empty keyword.
   */
  lemma RecordFields(lib: Library, b: Block)
    requires DecodeBlock(lib, b).Success?
    ensures var v := DecodeBlock(lib, b).value;
            var attrs := lib.content(b.body, VariableBlockSchema).0.attributes;
            |b.labels| > 0 && v.name == b.labels[0] &&
            ("description" !in attrs ==> v.description == "") &&
            ("type" !in attrs ==> v.varType == "") &&
            ("sensitive" !in attrs ==> !v.sensitive) &&
            ("type" in attrs ==> v.varType != "") &&
            ("description" in attrs ==> v.description == lib.decodeString(attrs["description"]).1) &&
            ("type" in attrs ==> v.varType == lib.exprAsKeyword(attrs["type"])) &&
            ("sensitive" in attrs ==> v.sensitive == lib.decodeBool(attrs["sensitive"]).1)
  {
  }

  /** The conditions under which a block aborts the call. */
  lemma DecodeBlockFailsIff(lib: Library, b: Block)
    ensures var (content, diags) := lib.content(b.body, VariableBlockSchema);
            var attrs := content.attributes;
            DecodeBlock(lib, b).Failure? <==>
              |b.labels| == 0 || HasErrors(diags) ||
              ("description" in attrs && HasErrors(lib.decodeString(attrs["description"]).0)) ||
              ("sensitive" in attrs && HasErrors(lib.decodeBool(attrs["sensitive"]).0)) ||
              ("type" in attrs && lib.exprAsKeyword(attrs["type"]) == "")
  {
  }

  /**
   * Top-level diagnostics never stop processing: the call succeeds exactly when the file
   * parsed and every block it matched decodes, whatever `Body.Content` reported.
   */
  lemma ConfigureSucceedsIff(lib: Library, file: Body, parseDiags: seq<Diagnostic>)
    ensures Configure(lib, file, parseDiags).Success? <==>
            !HasErrors(parseDiags) &&
            forall i :: 0 <= i < |TopBlocks(lib, file)| ==> DecodeBlock(lib, TopBlocks(lib, file)[i]).Success?
  {
    DecodeBlocksAllOrNothing(lib, TopBlocks(lib, file));
  }

  /**
   * When `Body.Content` honours the schema, the records are, in order, one per `variable`
   * block of the file with exactly one label, each named by that label, and the label
   * index never panics.
   */
  lemma ConfigureSelectedVariables(lib: Library, file: Body, parseDiags: seq<Diagnostic>)
    requires ContentSelects(lib, file, ConfigFileSchema)
    ensures Configure(lib, file, parseDiags) != Failure(LabelIndexOutOfRange)
    ensures var sel := SelectBlocks(ConfigFileSchema, file.blocks);
            Configure(lib, file, parseDiags).Success? ==>
              var vs := Configure(lib, file, parseDiags).value.variables;
              |vs| == |sel| &&
              forall i :: 0 <= i < |sel| ==>
                sel[i] in file.blocks && sel[i].blockType == "variable" && sel[i].labels == [vs[i].name]
  {
    var sel := SelectBlocks(ConfigFileSchema, file.blocks);
    forall i | 0 <= i < |sel|
      ensures sel[i] in file.blocks && sel[i].blockType == "variable" && |sel[i].labels| == 1
    {
      assert sel[i] in sel;
      SelectsConfigFile(sel[i]);
    }
    if Configure(lib, file, parseDiags) == Failure(LabelIndexOutOfRange) {
      DecodeBlocksFirstFailure(lib, sel);
    }
    if Configure(lib, file, parseDiags).Success? {
      DecodeBlocksInOrder(lib, sel);
      var vs := Configure(lib, file, parseDiags).value.variables;
      forall i | 0 <= i < |sel|
        ensures sel[i].labels == [vs[i].name]
      {
        RecordFields(lib, sel[i]);
      }
    }
  }

  /** One more diagnostic through the inline check extends the filtered prefix by it or by nothing. */
  lemma LoggedStep(errs: seq<Diagnostic>, k: int)
    requires 0 <= k < |errs|
    ensures CheckDiagnostics(errs[..k + 1], [UnsupportedBlockType]) ==
            CheckDiagnostics(errs[..k], [UnsupportedBlockType]) +
            (if Contains(Lower(Message(errs[k])), UnsupportedBlockType) then [] else [errs[k]])
  {
    var d, allowed := errs[k], [UnsupportedBlockType];
    assert errs[..k + 1] == errs[..k] + [d];
    CheckDiagnosticsConcat(errs[..k], [d], allowed);
    CheckSingle(d, allowed);
    InlineCheckIsFilter(d);
  }

  /** The top-level check of `configFromFile`: which diagnostics of `Body.Content` it logs. */
  method LogTopLevel(diags: seq<Diagnostic>) returns (logged: seq<Diagnostic>)
    ensures logged == Logged(diags)
  {
    logged := [];
    if HasErrors(diags) {
      var errs := Errs(diags);
      var k := 0;
      while k < |errs|
        invariant 0 <= k <= |errs|
        invariant logged == CheckDiagnostics(errs[..k], [UnsupportedBlockType])
      {
        LoggedStep(errs, k);
        if !Contains(Lower(Message(errs[k])), UnsupportedBlockType) {
          logged := logged + [errs[k]];
        }
        k := k + 1;
      }
      assert errs[..|errs|] == errs;
    }
  }

  /** One iteration of the block loop: the record built field by field, or the fatal error. */
  method NewVariable(lib: Library, block: Block) returns (r: Result<Variable, Error>)
    ensures r == DecodeBlock(lib, block)
  {
    if |block.labels| == 0 {
      return Failure(LabelIndexOutOfRange);
    }
    var v := Variable(block.labels[0], "", "", false);

    var (blockCont, blockDiags) := lib.content(block.body, VariableBlockSchema);
    if HasErrors(blockDiags) {
      return Failure(BlockContent(blockDiags));
    }

    if "description" in blockCont.attributes {
      var (descDiags, description) := lib.decodeString(blockCont.attributes["description"]);
      if HasErrors(descDiags) {
        return Failure(DescriptionAttr(descDiags));
      }
      v := v.(description := description);
    }

    if "sensitive" in blockCont.attributes {
      var (sensDiags, sensitive) := lib.decodeBool(blockCont.attributes["sensitive"]);
      if HasErrors(sensDiags) {
        return Failure(SensitiveAttr(sensDiags));
      }
      v := v.(sensitive := sensitive);
    }

    if "type" in blockCont.attributes {
      v := v.(varType := lib.exprAsKeyword(blockCont.attributes["type"]));
      if v.varType == "" {
        return Failure(TypeAttr);
      }
    }
    return Success(v);
  }

  /**
   * `configFromFile` from the outcome of `hclsyntax.ParseConfig` on: `logged` are the
   * top-level diagnostics it logs, `r` its result, `Failure` standing for `log.Fatal`.
   */
  method ConfigFromFile(lib: Library, file: Body, parseDiags: seq<Diagnostic>)
    returns (r: Result<Config, Error>, logged: seq<Diagnostic>)
    ensures r == Configure(lib, file, parseDiags)
    ensures logged == if HasErrors(parseDiags) then [] else Logged(lib.content(file, ConfigFileSchema).1)
  {
    if HasErrors(parseDiags) {
      return Failure(ParseConfig(parseDiags)), [];
    }

    var (bodyCont, diags) := lib.content(file, ConfigFileSchema);
    logged := LogTopLevel(diags);

    var blocks := bodyCont.blocks;
    var res: seq<Variable> := [];
    var i := 0;
    while i < |blocks|
      invariant 0 <= i <= |blocks|
      invariant DecodeBlocks(lib, blocks[..i]) == Success(res)
    {
      var v := NewVariable(lib, blocks[i]);
      if v.Failure? {
        DecodeBlocksStopsAt(lib, blocks, i);
        return Failure(v.error), logged;
      }
      DecodeBlocksSnoc(lib, blocks[..i], blocks[i]);
      assert blocks[..i + 1] == blocks[..i] + [blocks[i]];
      res := res + [v.value];
      i := i + 1;
    }
    assert blocks[..|blocks|] == blocks;
    r := Success(Config(res));
  }
}
