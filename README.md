# Selective HCL extraction, modelled in Dafny

This project models the extraction logic of a small Go tool that reads Terraform-style HCL
files and keeps only what it understands: `variable` (and, in the parser package, `output`)
blocks. It does not reimplement HCL; it models what the tool wraps around the HCL library:

- **the diagnostic allow-list filter** `checkDiagnostics(diags, allowed)` of the parser
  package (module `DiagnosticFilter`), as its tests fix it: diagnostics matching an allowed
  entry are dropped, the others kept in order and unchanged. Its implementation is not part
  of this model; the matching rule chosen (the lowered entry occurs in the lowered message)
  is one that fits the tests;
- **the static schemas** of the parser package and of the command, with the block-selection
  rule they imply: a block is selected when its type is declared and it has the declared
  number of labels (modules `Hcl`, `Parser`, `ConfigFile`);
- **`processSchema` and `processVariable`** of the parser package, whose implementations are
  not part of this model: they are modelled from the result shapes their tests require
  (module `Parser`);
- **`configFromFile`** of the command (module `ConfigFile`): it logs the unexpected
  top-level diagnostics and never stops for them. It turns every selected block, in order,
  into a `Variable` record whose name is the block's first label. It aborts the whole call,
  with no partial list, on the first block whose body, `description`, `sensitive` or `type`
  fails.

The HCL calls are parameters. `Hcl.Library` is a record of functions: `Body.Content`,
`gohcl.DecodeExpression` into a string and into a bool, and `hcl.ExprAsKeyword`. Every
result is proved for every such library. Where a property needs `Body.Content` to return
exactly the blocks the schema selects, the lemma assumes that through `Hcl.ContentSelects`.
`log.Fatal` becomes a `Failure` result. `log.Printf` of a top-level diagnostic becomes the
`logged` out-parameter of `ConfigFile.ConfigFromFile`.

Two behaviours of the command are worth spelling out:
- `configFromFile` only logs the unexpected top-level diagnostics (`main.go:82-89`); it does
  not abort on them;
- the command's `Variable` has `description`, `type` and `sensitive` (`main.go:57-62`), and its
  body schema has no `default`; the parser package's record has `name` and `default`. Both
  are modelled: `ConfigFile.Variable` and `Parser.ParsedVariable`.

Files: `results.dfy` (Option/Result), `sequences.dfy` (subsequence), `text.dfy`
(`strings.ToLower`, `strings.Contains`), `hcl.dfy` (diagnostics, document, schemas, library
record), `diagnostic_filter.dfy`, `diagnostic_filter_tests.dfy`, `parser.dfy`,
`config_file.dfy`.

## Model

| member | source | states |
|---|---|---|
| DiagnosticFilter.CheckDiagnostics | parser/parser_test.go:57-130 | a diagnostic is in the result iff it is in the input and no allowed entry matches it; the result is a subsequence of the input; with an empty allow-list the result is the input itself |
| DiagnosticFilter.Suppressed | parser/parser_test.go:57-130 | the matching rule: an entry, lowered, occurs in the lowered message; no entries match nothing, an empty entry matches everything |
| DiagnosticFilter.CheckDiagnosticsCounts | parser/parser_test.go:84-109 | every copy of a kept diagnostic is kept and every copy of a suppressed one dropped |
| DiagnosticFilter.CheckDiagnosticsEmptyIff | parser/parser_test.go:69-82 | the result is empty exactly when every diagnostic matched some allowed entry |
| DiagnosticFilter.CheckSingle | parser/parser_test.go:69-82 | one diagnostic is dropped exactly when it matches some allowed entry, and otherwise comes back as it is |
| DiagnosticFilter.CheckDiagnosticsConcat | parser/parser_test.go:84-109 | filtering distributes over concatenation, so kept diagnostics keep their relative order |
| DiagnosticFilter.CheckDiagnosticsCompose | parser/parser_test.go:111-130 | filtering by one allow-list and then another equals filtering by both together: each entry suppresses its own diagnostics |
| DiagnosticFilter.CheckDiagnosticsIdempotent | parser/parser_test.go:84-109 | filtering the result again with the same allow-list changes nothing |
| DiagnosticFilter.SummaryMatchSuppresses | parser/parser_test.go:69-82 | an allowed entry that occurs, ignoring case, in the summary suppresses the diagnostic |
| DiagnosticFilter.SameCaseSummarySuppresses | parser/parser_test.go:77-81 | an allowed entry spelled exactly like the summary, capitals included, suppresses it |
| DiagnosticFilterTests.NoAllowedErrors | parser/parser_test.go:57-67 | with no allow-list the single disallowed diagnostic comes back unchanged |
| DiagnosticFilterTests.AllAllowedErrors | parser/parser_test.go:69-82 | the single diagnostic whose summary is the allowed entry is dropped, leaving nothing |
| DiagnosticFilterTests.NotAllowedIsKept | parser/parser_test.go:85-99 | "Allowed diagnostic" does not match the "Not allowed" diagnostic |
| DiagnosticFilterTests.MixOfErrors | parser/parser_test.go:84-109 | of the disallowed and the allowed diagnostic exactly the disallowed one comes back, untouched |
| DiagnosticFilterTests.MultipleAllowedErrors | parser/parser_test.go:111-130 | two entries suppress two different diagnostics, leaving nothing |
| Text.Lower | main.go:85 | the lowered text has the same length and no capital letters, each character equals its input character up to case, and every character that is not a capital stays where it was |
| Text.LowerIdempotent | main.go:85 | lowering twice is lowering once |
| Text.LowerIgnoresCase | main.go:85 | two texts lower to the same text exactly when they have the same length and agree at every position up to case |
| Text.LowerOfLowercase | main.go:85 | text without capitals, such as "unsupported block type", is unchanged by lowering |
| Text.Contains | main.go:85 | the empty text is contained everywhere, a longer text never, a prefix always |
| Text.ContainsIff | main.go:85 | the substring test holds exactly when the text occurs at some index |
| Hcl.Message | main.go:85 | a diagnostic's text begins with its summary and ends with its detail |
| Hcl.HasErrors | main.go:99 | a diagnostic list has errors exactly when its list of errors is not empty |
| Hcl.Errs | main.go:84 | the errors of a diagnostic list are exactly its error-severity members, in order |
| Hcl.ErrsCounts | main.go:84 | every copy of an error-severity diagnostic is kept, no copy of any other |
| Hcl.Selects | parser/parser.go:21-32 | a schema selects a block when it declares the block's type with as many label names as the block has labels (also main.go:29-36): a block of an undeclared type, or whose label count matches no header, is not selected |
| Hcl.SelectBlocks | parser/parser.go:21-32 | the blocks kept are exactly those the schema selects, in source order |
| Hcl.SelectBlocksCounts | parser/parser.go:21-32 | every copy of a selected block is kept, so duplicate declarations stay duplicated |
| Parser.ImportantBlockTypes | parser/parser.go:21-32 | the top-level schema recognises exactly the block types `variable` and `output` |
| Parser.ImportantBlockLabels | parser/parser.go:24-30 | each recognised block type declares exactly the one label `name` |
| Parser.SelectsImportant | parser/parser.go:21-32 | a block is selected iff it is a `variable` or `output` block with exactly one label |
| Parser.VariableAttributes | parser/parser.go:34-40 | the variable body schema lists exactly the attribute `default` and no blocks |
| Parser.DefaultIsOptional | parser/parser.go:36-38 | `default` is not required: every attribute set, one without `default` included, satisfies the schema |
| Parser.MatchSchema | parser/parser_test.go:153-172 | exactly one outcome: the content with no diagnostics when every diagnostic is expected, otherwise no content and the non-empty unexpected diagnostics |
| Parser.ProcessSchema | parser/parser_test.go:153-172 | on failure no body and present diagnostics, on success the body and no diagnostics; the diagnostics returned are exactly the unexpected ones |
| Parser.ProcessVariable | parser/parser_test.go:174-182 | a non-variable block gives no record and no diagnostics; a variable block gives a record iff no diagnostics; the record is named by the block's label |
| Parser.ProcessVariableSucceeds | parser/parser_test.go:174-182 | a selected variable block yields its record and no diagnostics iff its body diagnostics are all expected and its `default`, if present, decodes cleanly |
| ConfigFile.ConfigFileBlockTypes | main.go:29-36 | the command's schema recognises only `variable`, with the one label `name`; it has no `output` entry |
| ConfigFile.SelectsConfigFile | main.go:29-36 | a block is selected iff it is a `variable` block with exactly one label |
| ConfigFile.VariableAttributes | main.go:38-50 | the command's variable body schema lists `description`, `type`, `sensitive`, none required |
| ConfigFile.InlineCheckIsFilter | main.go:85 | the inline lowercase-contains test is the allow-list filter with the single entry "unsupported block type" |
| ConfigFile.Logged | main.go:82-89 | what is logged is a subsequence of the top-level diagnostics, all of them errors |
| ConfigFile.HclUnsupportedBlockNotLogged | main.go:82-89 | HCL's own "Unsupported block type" error is never logged, whatever its detail, because the message is lowered before the comparison |
| ConfigFile.LoggedExactly | main.go:82-89 | a top-level diagnostic is logged iff it is an error whose lowered text does not contain "unsupported block type" |
| ConfigFile.LogTopLevel | main.go:82-89 | the loop over the errors logs exactly the filtered errors, in order |
| ConfigFile.NewVariable | main.go:94-122 | the record built field by field, or the fatal error, is the block's decoding |
| ConfigFile.DecodeBlock | main.go:94-122 | a block fails with the label panic exactly when it has no label; a record is named by the first label |
| ConfigFile.Configure | main.go:77-126 | a parse failure aborts first; on success there is one record per matched block |
| ConfigFile.DecodeBlocks | main.go:93-125 | on success there is one record per block |
| ConfigFile.DecodeBlocksAppend | main.go:93-125 | decoding a concatenation is decoding each part, failing with the first part's error |
| ConfigFile.DecodeBlocksStopsAt | main.go:98-121 | a failing block after a decoded prefix makes the whole call fail with its error |
| ConfigFile.DecodeBlocksAllOrNothing | main.go:98-121 | the blocks decode iff every single block does; there is never a partial list |
| ConfigFile.DecodeBlocksInOrder | main.go:93-124 | record `i` is what block `i` decodes to: one record per block, in block order |
| ConfigFile.DecodeBlocksFirstFailure | main.go:98-121 | a failure is the error of the first block that fails, all earlier blocks decoding |
| ConfigFile.RecordFields | main.go:94-122 | a record's name is the block's first label; absent `description`, `type`, `sensitive` leave "", "" and false; a present `type` is a non-empty keyword; a present `description`, `type` or `sensitive` holds the value the library decoded from it |
| ConfigFile.DecodeBlockFailsIff | main.go:94-121 | a block aborts iff it has no label, its body has errors, `description` or `sensitive` fail to decode, or `type` is not a keyword |
| ConfigFile.ConfigureSucceedsIff | main.go:77-126 | the call succeeds iff the file parsed and every matched block decodes, whatever the top-level diagnostics say |
| ConfigFile.ConfigureSelectedVariables | main.go:93-96 | when the library honours the schema, the records are one per `variable` block with exactly one label, in order, each named by that label, and the label index never panics |
| ConfigFile.ConfigFromFile | main.go:71-127 | the result and logged diagnostics are those of the specification functions `Configure` and `Logged` |

## Left out

- Reading the file (`os.ReadFile`) and lexing and parsing it (`hclsyntax.ParseConfig`) are left out: `ConfigFile.ConfigFromFile` starts from the parsed body and the parser's diagnostics.
- The `loadFile` tests and their fixture files are left out. The fixtures are not part of this model.
- `Body.Content`, `gohcl.DecodeExpression` and `hcl.ExprAsKeyword` are supplied as functions; their internals are not modelled.
- Logging and printing (`log.Printf`, `fmt.Printf`, `main`) are left out. `log.Fatal` and the index panic on a label-less block become `Failure` results.
- Directory iteration, file-extension filtering and the output-record extractor do not appear in the modelled code, so they are not modelled.
- DiagnosticFilter.CheckDiagnostics: the implementation of `checkDiagnostics` is not part of this model. Its four tests fix which diagnostics survive, but not how entries are matched. Matching the lowered entry against the lowered summary and detail is an assumption that fits them; a case-sensitive match, or one on the summary alone, would fit them too.
- Hcl.Message: a diagnostic's text is its summary and detail; the source-position prefix that `Diagnostic.Error()` adds is not modelled.
- Text.Lower: only ASCII capitals are lowered; Go's `strings.ToLower` also folds other Unicode letters.
- Parser.ProcessSchema: the implementation is not part of this model. Its allow-list, "unsupported block", is an assumption: the expected complaints at the top level are about unsupported block types.
- Parser.ProcessVariable: the implementation is not part of this model. It requires a block the important-blocks schema selected, as the test at parser/parser_test.go:174-177 does, which hands it a block of `processSchema`'s result. Its allow-list, "unsupported attribute" and "unsupported argument", is an assumption of the same kind. Its `default` is decoded as a string.
- Go's distinction between a nil and an empty diagnostics slice is not modelled; both are the empty sequence.
