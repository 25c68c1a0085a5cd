# SDL parser front end and syntax tree, modelled in Dafny

This project models the live core of the SDL templating-language parser:

- the **text preprocessor** in `ParserConfig::parse`, which normalises CRLF
  line endings, splices backslash-newline continuations and expands tabs, in
  that fixed order, before the grammar engine sees the text;
- the **top-level dispatch** `ParserConfig::parse_program`, which walks the
  grammar engine's top-level pairs, skips `EOI` and panics on any other rule;
- the **syntax tree** `AST` (a `Node` with children or a `Leaf` without,
  each with a kind from the `ASTKind` catalogue and an optional range), its
  constructors, its accessors `kind`, `children` and `range`, `box_range`,
  and the scalar cases of its `Debug` rendering.

Files and modules:

- `wrappers.dfy` (`Wrappers`): Rust's `Option` and `Result`.
- `strings.dfy` (`Strings`): `ReplaceAll`, the left-to-right,
  non-overlapping scan of Rust's `str::replace`, with a per-character
  reference definition (`ExpandChar`) and the laws the preprocessor needs.
- `ast.dfy` (`Ast`): the tree datatypes, constructors, accessors and Debug
  text.
- `parser.dfy` (`Parser`): the three preprocessing steps, the dispatch over
  rule tags and the `ParserConfig` class whose `Parse` method updates the
  stored URL.

The grammar engine is a parameter of `Parse` (a function from normalised text
to a sequence of top-level rule tags, or an error). A panic (`unreachable!`)
is modelled as the outcome `Aborted(rule)`, distinct from a returned error.

The preprocessor and the dispatch are proved against specification
functions: `Preprocess` never leaves a tab, is the identity on text free of
CRLF, continuations and tabs, and on text without `\r` and `\` only expands
tabs, adding `tabSize - 1` characters per tab. Preprocessing is not
idempotent in general: `"\r\\\n\n"` becomes `"\r\n"`, which a second pass
turns into `"\n"`. The dispatch succeeds exactly when every pair is `EOI`,
so a successful parse of the live code always yields a statement node with
no children.

Three behaviours of the code are worth stating plainly: an unhandled
top-level rule panics; infix, prefix and suffix constructors keep neither
operator nor operands; `ForInLoop` and `Template` trees are leaves, so
`children()` on them is empty.

## Model

| member | source | states |
|---|---|---|
| `Strings.ReplaceAll` | projects/sdl-parser/src/parser/mod.rs:28-30 | the left-to-right, non-overlapping scan of `str::replace`; the output is no longer than the input when the replacement is no longer than the pattern, no shorter when it is no shorter, and of equal length when both have equal length |
| `Strings.Spaces` | projects/sdl-parser/src/parser/mod.rs:30 | `" ".repeat(n)`: exactly `n` characters, all spaces |
| `Strings.ReplaceAllNoMatch` | projects/sdl-parser/src/parser/mod.rs:28-30 | replacing a pattern that does not occur leaves the text unchanged |
| `Strings.ReplaceCharIsExpand` | projects/sdl-parser/src/parser/mod.rs:30 | the scan with a one-character pattern replaces each occurrence, and only those, by the replacement text |
| `Strings.ReplaceCharRemovesIt` | projects/sdl-parser/src/parser/mod.rs:30 | a one-character pattern replaced by text without it leaves no occurrence |
| `Strings.ExpandCharLength` | projects/sdl-parser/src/parser/mod.rs:30 | each replaced character changes the length by the replacement's length minus one |
| `Parser.NormalizeLineEndings` | projects/sdl-parser/src/parser/mod.rs:28 | step 1 equals the character-by-character reference `DropCrBeforeLf`, and shortens the text by one per CRLF |
| `Parser.SpliceContinuations` | projects/sdl-parser/src/parser/mod.rs:29 | step 2 equals the character-by-character reference `DropContinuations`, and shortens the text by two per backslash-newline |
| `Parser.NormalizeIsDropCr` | projects/sdl-parser/src/parser/mod.rs:28 | for every text, the CRLF scan drops exactly the carriage returns that directly precede a line feed |
| `Parser.DropCrBeforeLfLength` | projects/sdl-parser/src/parser/mod.rs:28 | dropping those carriage returns shortens the text by their number |
| `Parser.SpliceIsDropContinuations` | projects/sdl-parser/src/parser/mod.rs:29 | for every text, the continuation scan deletes exactly each backslash directly followed by a line feed, with that line feed |
| `Parser.DropContinuationsLength` | projects/sdl-parser/src/parser/mod.rs:29 | deleting the continuations shortens the text by twice their number |
| `Parser.ExpandTabs` | projects/sdl-parser/src/parser/mod.rs:30 | every tab becomes exactly `tabSize` spaces, no tab remains, and the length grows by `tabSize - 1` per tab |
| `Parser.Preprocess` | projects/sdl-parser/src/parser/mod.rs:26-30 | after preprocessing no tab remains, for every tab size |
| `Parser.NormalizedIsFixedPoint` | projects/sdl-parser/src/parser/mod.rs:26-30 | text without CRLF, backslash-newline and tab is returned unchanged |
| `Parser.PreprocessOnlyExpandsTabs` | projects/sdl-parser/src/parser/mod.rs:28-30 | without `\r` and `\` only tabs change, and the output length is the input length plus `(tabSize - 1)` times the number of tabs |
| `Parser.TabExample` | projects/sdl-parser/src/parser/mod.rs:30 | `"a\tb"` with tab size 2 gives `"a  b"` |
| `Parser.OrderSplicesCrlfContinuation` | projects/sdl-parser/src/parser/mod.rs:28-29 | CRLF is normalised first, so `"a\\\r\nb"` gives `"ab"`; the opposite order would leave `"a\\\nb"` |
| `Parser.PreprocessNotIdempotent` | projects/sdl-parser/src/parser/mod.rs:28-29 | splicing can create a new CRLF, so a second pass may change the text |
| `Parser.OnlyEoiSucceeds` | projects/sdl-parser/src/parser/mod.rs:36-66 | the dispatch succeeds if and only if every pair is `EOI`, and then yields a statement node with no children |
| `Parser.FirstNonEoiAborts` | projects/sdl-parser/src/parser/mod.rs:12-18 | the first pair that is not `EOI` aborts the parse with that rule |
| `Parser.ParsedIsEmpty` | projects/sdl-parser/src/parser/mod.rs:22-33 | whatever the text and grammar output, a successful parse is a statement node with no children |
| `Parser.ParserConfig.Parse` | projects/sdl-parser/src/parser/mod.rs:22-33 | the URL is overwritten only when the input supplies one, the tab size is kept, and the outcome is acquisition, preprocessing, grammar and dispatch composed, errors propagated |
| `Parser.ParserConfig.ParseProgram` | projects/sdl-parser/src/parser/mod.rs:34-67 | the loop skips `EOI`, aborts on the first other rule, and otherwise returns the statement node over the collected codes |
| `Ast.BoxRange` | projects/sdl-ast/src/ast/mod.rs:141-146 | a range whose sum is zero is dropped, any other is stored as given |
| `Ast.DefaultAst` | projects/sdl-ast/src/ast/mod.rs:48-52 | the default tree is a `None`-kind leaf with no range and no children |
| `Ast.Kind` | projects/sdl-ast/src/ast/mod.rs:72-76 | the result is the stored kind of a node and of a leaf alike |
| `Ast.Children` | projects/sdl-ast/src/ast/mod.rs:78-83 | a leaf has no children; a node's children come back in stored order |
| `Ast.Range` | projects/sdl-ast/src/ast/mod.rs:84-88 | the stored range, or the default range when none is stored |
| `Ast.ProgramNode` | projects/sdl-ast/src/ast/mod.rs:92-94 | a `Program` node with exactly the given children, never storing a range |
| `Ast.BlockNode` | projects/sdl-ast/src/ast/mod.rs:95-97 | a `Block` node with the given children; the range reads back as given unless its sum is zero, then as the default |
| `Ast.StatementNode` | projects/sdl-ast/src/ast/mod.rs:98-100 | a `Statement` node with the given children and the range kept as for `Block` |
| `Ast.ForInLoopLeaf` | projects/sdl-ast/src/ast/mod.rs:101-104 | a leaf whose kind holds pattern, terms and block, so it has no children |
| `Ast.ExpressionNode` | projects/sdl-ast/src/ast/mod.rs:106-108 | an `Expression(eos)` node with the given children and the range kept as for `Block` |
| `Ast.InfixLeaf` | projects/sdl-ast/src/ast/mod.rs:110-112 | an `InfixExpression` leaf with no children |
| `Ast.PrefixLeaf` | projects/sdl-ast/src/ast/mod.rs:114-116 | a `PrefixExpression` leaf with no children |
| `Ast.SuffixLeaf` | projects/sdl-ast/src/ast/mod.rs:118-120 | a `SuffixExpression` leaf with no children |
| `Ast.OperatorNodesForgetOperands` | projects/sdl-ast/src/ast/mod.rs:110-120 | infix, prefix and suffix trees do not depend on operator or operands |
| `Ast.TemplateLeaf` | projects/sdl-ast/src/ast/mod.rs:122-124 | a leaf whose kind holds the template, so it has no children |
| `Ast.ListNode` | projects/sdl-ast/src/ast/mod.rs:126-128 | a `List` node with the given items as children in order |
| `Ast.NullLeaf` | projects/sdl-ast/src/ast/mod.rs:130-132 | a `Null` leaf |
| `Ast.BooleanLeaf` | projects/sdl-ast/src/ast/mod.rs:133-135 | a `Boolean(value)` leaf |
| `Ast.StringLeaf` | projects/sdl-ast/src/ast/mod.rs:136-138 | a `String(value)` leaf |
| `Ast.DebugText` | projects/sdl-ast/src/ast/mod.rs:54-68 | a bare text is produced exactly for the `Null`, `Boolean` and `String` kinds |
| `Ast.DebugScalars` | projects/sdl-ast/src/ast/mod.rs:57-60 | `Null` renders as `null`, `Boolean` as `true`/`false`, `String` verbatim |
| `Ast.DebugIgnoresShape` | projects/sdl-ast/src/ast/mod.rs:55-60 | the scalar rendering depends on the kind only, not on range or children |

## Left out

- The grammar engine `SDLParser::parse` is a parameter of `Parse`; its rules are reduced to `EOI` and any other rule name, and pair spans and text are not modelled.
- `CanParse::as_url` and `as_text` are not shown: their results are the fields of the `Source` value given to `Parse`.
- The `println!` calls of the debug dispatch are console output and are left out; only the panic is modelled, as `Aborted`.
- The commented-out translators of the parser file (lists, tables, headers, styled text) are dead code and are not modelled.
- The `debug_struct` branch of `Debug::fmt` is standard formatting machinery: `DebugText` gives `None` there.
- `TextRange` is not shown: the model represents it by two unsigned offsets whose total is its sum, with the all-zero range as default; `ForInLoop`'s fields come from its constructor call; `Template` is an opaque type.
- The `Box` around ranges and payloads is a memory-layout detail and is dropped.
- `AST::statements`, which the parser calls to wrap the top-level codes, is not defined in ast/mod.rs; the model uses `StatementNode` in its place, a `Statement` node over the given children.
- `ParserConfig`'s definition and default are not shown: the constructor takes the tab size and the URL, and URLs are plain strings.
- Strings.ReplaceAll: requires a non-empty pattern, because `str::replace` with an empty pattern is never used by the parser.
- `tab_size` is a natural number: the `usize` bound and the allocation of the repeated spaces are not modelled.
- The test file only drives the external evaluator and renderer and asserts nothing; it is not modelled.
