/**
 * The slice of the HCL library the extraction code talks to: diagnostics, the
 * structural document (blocks with labels and attribute bodies), body schemas, and
 * the library calls themselves as a record of functions supplied by the caller.
 */
module Hcl {
  import opened Sequences

  datatype Severity = DiagInvalid | DiagError | DiagWarning

  /** A structural or semantic complaint: (severity, summary, detail). */
  datatype Diagnostic = Diagnostic(severity: Severity, summary: string, detail: string)

  /** The text of `Diagnostic.Error()`, without its source-position prefix: summary first, detail last. */
  function Message(d: Diagnostic): (r: string)
    ensures d.summary <= r
    ensures |d.detail| <= |r| && r[|r| - |d.detail|..] == d.detail
  {
    d.summary + "; " + d.detail
  }

  /** `Diagnostics.HasErrors`: some diagnostic has error severity, so `Errs` is not empty. */
  predicate HasErrors(diags: seq<Diagnostic>): (r: bool)
    ensures r <==> Errs(diags) != []
  {
    var errs := Errs(diags);
    assert errs != [] ==> errs[0] in errs;
    exists d :: d in diags && d.severity == DiagError
  }

  /** `Diagnostics.Errs`: the error-severity diagnostics, in order. */
  function Errs(diags: seq<Diagnostic>): (r: seq<Diagnostic>)
    ensures forall d :: d in r <==> d in diags && d.severity == DiagError
    ensures IsSubsequence(r, diags)
  {
    if diags == [] then []
    else if diags[0].severity == DiagError then [diags[0]] + Errs(diags[1..])
    else Errs(diags[1..])
  }

  /** `Errs` keeps every copy of an error-severity diagnostic and no copy of any other. */
  lemma {:induction false} ErrsCounts(diags: seq<Diagnostic>, d: Diagnostic)
    ensures multiset(Errs(diags))[d] == if d.severity == DiagError then multiset(diags)[d] else 0
  {
    if diags != [] {
      ErrsCounts(diags[1..], d);
      assert diags == [diags[0]] + diags[1..];
    }
  }

  /** An attribute's expression, kept as source text; only the library interprets it. */
  datatype Expr = Expr(source: string)

  /** A body: attributes by name and nested blocks in source order. */
  datatype Body = Body(attributes: map<string, Expr>, blocks: seq<Block>)

  /** A block: its type, its positional labels and its body. */
  datatype Block = Block(blockType: string, labels: seq<string>, body: Body)

  /** What `Body.Content` hands back for a schema: matched attributes and blocks. */
  datatype BodyContent = BodyContent(attributes: map<string, Expr>, blocks: seq<Block>)

  datatype AttributeSchema = AttributeSchema(name: string, required: bool)

  datatype BlockHeaderSchema = BlockHeaderSchema(blockType: string, labelNames: seq<string>)

  datatype BodySchema = BodySchema(attributes: seq<AttributeSchema>, blocks: seq<BlockHeaderSchema>)

  /** The block types a schema recognises. */
  function BlockTypes(schema: BodySchema): set<string>
  {
    set h | h in schema.blocks :: h.blockType
  }

  /** The attribute names a schema lists, in order. */
  function AttributeNames(schema: BodySchema): (r: seq<string>)
    ensures |r| == |schema.attributes|
    ensures forall i :: 0 <= i < |r| ==> r[i] == schema.attributes[i].name
  {
    seq(|schema.attributes|, i requires 0 <= i < |schema.attributes| => schema.attributes[i].name)
  }

  /** Every attribute the schema marks required is present. */
  predicate RequiredPresent(schema: BodySchema, attributes: map<string, Expr>)
  {
    forall a :: a in schema.attributes && a.required ==> a.name in attributes
  }

  /** A schema selects a block when it declares the block's type with as many labels as the block has. */
  predicate Selects(schema: BodySchema, b: Block): (r: bool)
    ensures r ==> b.blockType in BlockTypes(schema)
    ensures (forall h :: h in schema.blocks ==> |h.labelNames| != |b.labels|) ==> !r
  {
    exists h :: h in schema.blocks && h.blockType == b.blockType && |b.labels| == |h.labelNames|
  }

  /** The blocks a schema selects, in source order. */
  function SelectBlocks(schema: BodySchema, bs: seq<Block>): (r: seq<Block>)
    ensures forall b :: b in r <==> b in bs && Selects(schema, b)
    ensures IsSubsequence(r, bs)
  {
    if bs == [] then []
    else if Selects(schema, bs[0]) then [bs[0]] + SelectBlocks(schema, bs[1..])
    else SelectBlocks(schema, bs[1..])
  }

  /** `SelectBlocks` keeps every copy of a selected block, so duplicate declarations stay duplicated. */
  lemma {:induction false} SelectBlocksCounts(schema: BodySchema, bs: seq<Block>, b: Block)
    ensures multiset(SelectBlocks(schema, bs))[b] == if Selects(schema, b) then multiset(bs)[b] else 0
  {
    if bs != [] {
      SelectBlocksCounts(schema, bs[1..], b);
      assert bs == [bs[0]] + bs[1..];
    }
  }

  /**
   * The library calls, supplied by the caller:
   * `content` is `Body.Content`, `decodeString` and `decodeBool` are
   * `gohcl.DecodeExpression` into a string and a bool target (diagnostics, value
   * written), and `exprAsKeyword` is `hcl.ExprAsKeyword` ("" when not a keyword).
   */
  datatype Library = Library(
    content: (Body, BodySchema) -> (BodyContent, seq<Diagnostic>),
    decodeString: Expr -> (seq<Diagnostic>, string),
    decodeBool: Expr -> (seq<Diagnostic>, bool),
    exprAsKeyword: Expr -> string)

  /** `Body.Content` returns exactly the blocks the schema selects, in order. */
  predicate ContentSelects(lib: Library, body: Body, schema: BodySchema)
  {
    lib.content(body, schema).0.blocks == SelectBlocks(schema, body.blocks)
  }
}
