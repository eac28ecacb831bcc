# esprima parser core, modelled in Dafny

This project models the self-contained algorithmic pieces of a TypeScript fork of
the esprima ECMAScript/JSX parser. The token stream, the character scanner and
the error reporter are abstracted: parsed sub-expressions become parameters or
abstract operands, and thrown errors become `Result` values. Tolerated errors
become an appended list.

One module per component:

- `Tokens` (`tokens.dfy`): the token kinds and their display names. It also holds
  the total narrowing functions `assert_raw_token_value`, `as_string`,
  `as_unary_operator` and `as_binary_operator`.
- `Syntax` (`syntax.dfy`) and `Nodes` (`nodes.dfy`): the ESTree `type` strings.
  The syntax tree is one immutable tagged union with a `TypeOf` tag function.
  The module also holds the node constructors with non-trivial logic
  (BinaryExpression, UnaryExpression, UpdateExpression, Module, Script) and the
  type predicates and asserts.
- `Precedence` (`precedence.dfy`):
  - the per-instance operator table, including the caller-supplied override;
  - `binaryPrecedence`;
  - the shift/reduce precedence climber of `parseBinaryExpression`, with its two
    one-way `??` versus `&&`/`||` latches.
  - The climber is proved to return the unique precedence-ordered tree that
    reads as its input.
- `Cover` (`cover.dfy`):
  - the `isolateCoverGrammar` and `inheritCoverGrammar` flag algebra;
  - `reinterpretExpressionAsPattern`, as a pure rewrite that returns the
    retagged tree.
- `Params` (`params.dfy`): `validateParam`, `checkPatternParam` and the
  duplicate-parameter decision of `parseFormalParameters`.
- `Chain` (`chain.dfy`): the member/call link loop of
  `parseLeftHandSideExpressionAllowCall`. It handles optional chaining and the
  tagged-template restrictions.
- `Comments` (`comments.dfy`): the `CommentHandler` as a state record stepped by
  pure functions over a stream of node and comment events. Each node's
  `leadingComments`, `trailingComments` and `innerComments` fields are maps in
  the state, keyed by a node id.
- `JsxNames`, `JsxLexer` and `JsxElements`:
  - `jsx_names.dfy`: qualified element names;
  - `jsx_lexer.dfy`: XHTML entity decoding, `lexJSX` and `nextJSXText` over a
    string and an index;
  - `jsx_elements.dfy`: `parseJSXChildren` and the explicit-stack element
    nesting of `parseComplexJSXElement`.

Three behaviours of the comment handler, kept as the code has them:

- **Inner comments.** An empty block claims the pending-leading comments that
  start at or before the block's end offset (src/comment-handler.ts:37). See
  `Comments.InsertInnerSpec`.
- **Borrowed trailing comments.** When no trailing comment is pending, a node
  takes over the stack top's `trailingComments`, provided the first of them
  starts at or after the node's end (src/comment-handler.ts:63-70). See
  `Comments.FindTrailingComments`.
- **One comment, two nodes.** Every scanned comment joins both pending lists
  (src/comment-handler.ts:162-163), and the lists are claimed independently.
  So a comment can become the trailing comment of one node and the leading
  comment of the next (`Comments.CommentBothTrailingAndLeading`). Within each
  role it is attached at most once (`Comments.RunAttachesOncePerRole`).

## Model

| member | source | states |
|---|---|---|
| Tokens.TokenNameInjective | src/token.ts:18-30 | the twelve token kinds have pairwise distinct display names, so the name identifies the kind |
| Tokens.AssertRawTokenValue | src/token.ts:42-63 | succeeds exactly for strings, numbers and null, returning the value unchanged; every other host value is an error |
| Tokens.AsString | src/token.ts:65-73 | the identity on strings; numbers and null are an error |
| Tokens.AsUnaryOperator | src/token.ts:75-92 | succeeds exactly for the seven unary operators and returns its input; another string gives a NotUnaryOperator error naming it; a non-string fails in as_string |
| Tokens.AsBinaryOperator | src/token.ts:94-129 | succeeds exactly for the twenty-five binary operators (in and instanceof included) and returns its input; otherwise an error |
| Nodes.BinaryExpressionTag | src/nodes.ts:240-252 | a BinaryExpression is tagged LogicalExpression if and only if its operator is one of the three logical operators, and BinaryExpression otherwise |
| Nodes.NewUnaryExpression | src/nodes.ts:990-1001 | a UnaryExpression always has prefix set, and keeps its operator and argument |
| Nodes.NewUpdateExpression | src/nodes.ts:1003-1014 | an UpdateExpression stores prefix as given, with its operator and argument |
| Nodes.NewModule | src/nodes.ts:690-702 | a Module is a Program with sourceType module, is_module holds and is_script does not |
| Nodes.NewScript | src/nodes.ts:818-830 | a Script is a Program with sourceType script, is_script holds and is_module does not |
| Nodes.MemberExpressionSplit | src/nodes.ts:358-365 | the computed and static member predicates are disjoint, split the MemberExpression tag on `computed`, and is_member_expression is their union (the predicates' bodies are at src/nodes.ts:65-66 and 881-888) |
| Nodes.FunctionParameterKinds | src/nodes.ts:24-26 | is_function_parameter holds exactly for the seven listed kinds |
| Nodes.AssertFunctionParameters | src/nodes.ts:28-48 | succeeds exactly when every element is a function parameter, returning the list unchanged; a failure means some element is not one |
| Nodes.AssertRestElementArgument | src/nodes.ts:796-807 | accepts exactly array patterns, assignment patterns, identifiers, member expressions and object patterns, returning the node unchanged; otherwise fails naming its type |
| Precedence.BuildTable | src/parser.ts:198-208 | the instance table has the default table's operators; an operator for which the override returns a number takes that number, and every other operator keeps its default |
| Precedence.NoOpOverrideIsNoOverride | src/parser.ts:198-208 | an override that returns undefined everywhere yields the same table as no override |
| Precedence.BinaryPrecedence | src/parser.ts:1840-1851 | punctuators take their table entry, or 0 when absent; `instanceof`, and `in` when allowIn holds, take 12 regardless of the table; all else takes 0 |
| Precedence.ReduceTop | src/parser.ts:1896-1904 | one reduction pops an operator and its two operands into one tree, failing exactly when the operator does not pass as_binary_operator |
| Precedence.ReduceKeepsReading | src/parser.ts:1896-1904 | a reduction keeps the in-order reading of the stack |
| Precedence.ReduceKeepsInv | src/parser.ts:1896-1904 | a reduction keeps the stack invariant (increasing precedences, ordered trees) |
| Precedence.ReduceWhile | src/parser.ts:1895-1905 | the reduce phase keeps reading and invariant and leaves a top strictly below the incoming precedence; it fails only on an operator the narrowing rejects |
| Precedence.Shift | src/parser.ts:1895-1911 | one reduce-then-shift round carries the climbing invariant (ordered stack whose reading is the input consumed so far) one step further; it fails only when some consumed operator is not binary |
| Precedence.ReduceAll | src/parser.ts:1914-1927 | the final right-to-left fold yields an ordered tree reading exactly as the stack, and succeeds if and only if every stacked operator is binary |
| Precedence.LatchStep | src/parser.ts:1858-1893 | the two latches fire at a step exactly when it mixes `??` with an earlier `&&`/`||` or the other way round, and updating them gives the latches for the next step |
| Precedence.ClimbLoop | src/parser.ts:1884-1912 | the loop consumes every step up to the first non-positive precedence; a failure is the first latch conflict or a non-binary operator |
| Precedence.ParseBinaryExpression | src/parser.ts:1853-1930 | succeeds if and only if the consumed prefix has no `??`/`&&`/`||` mix and only binary operators; the result is the ordered tree whose reading is the consumed input; with binary operators the only error is the first conflict |
| Precedence.OrderedTreeUnique | src/parser.ts:1895-1927 | two precedence-ordered trees with the same reading are equal, so the grouping the climber returns is the only correct one |
| Precedence.DefaultTableClimbsBinary | src/parser.ts:125-153 | under the default table every operator climbing consumes is one as_binary_operator accepts |
| Precedence.MultiplyBeforeShift | tests/precedence.spec.ts:49-90 | with the default table `a * b << c` groups as `(a * b) << c` |
| Precedence.ShiftAfterMultiply | tests/precedence.spec.ts:91-132 | with the default table `a << b * c` groups as `a << (b * c)` |
| Precedence.EqualPrecedenceAssociatesLeft | src/parser.ts:1896-1897 | equal precedences associate to the left: `a - b + c` is `(a - b) + c` |
| Precedence.OverrideRegroups | tests/precedence.spec.ts:175-217 | an override ranking `<<` above `*` regroups `a * b << c` as `a * (b << c)` |
| Precedence.NullishMixing | src/parser.ts:1888-1893 | `a ?? b \|\| c` conflicts at its second operator, while `a ?? b ?? c` has no conflict |
| Cover.Isolate | src/parser.ts:642-661 | raises exactly when the sub-parse recorded a cover-initialized-name error, raising that token; otherwise restores all three fields |
| Cover.Inherit | src/parser.ts:663-679 | each flag is the conjunction of its value before and after the sub-parse; an earlier recorded error is kept, and with none recorded the sub-parse's error (or its absence) is the result |
| Cover.InheritFreshIsNoOp | src/parser.ts:663-679 | inheriting an untouched sub-parse changes nothing |
| Cover.InheritIntoFresh | src/parser.ts:663-679 | inheriting into the fresh state yields the sub-parse's state |
| Cover.InheritAssociative | src/parser.ts:663-679 | nested inheritance is associative, so the grouping of sub-parses does not matter |
| Cover.InheritIdempotent | src/parser.ts:663-679 | inheriting the same sub-parse twice equals inheriting it once |
| Cover.IsolateSeesInheritedError | src/parser.ts:642-679 | an isolated parse fails exactly when an inherited sub-parse recorded an error, raising the earliest one |
| Cover.BinaryExpressionCover | src/parser.ts:1853-1911 | with no operator the state is the first operand's inheritance; otherwise it fails exactly when some later operand recorded a cover-initialized-name error, raising the first such error, and on success the expression is neither an assignment target nor a binding element and keeps the inherited error |
| Cover.Reinterpret | src/parser.ts:1138-1170 | spread, array, object and assignment expressions become rest, array, object and assignment patterns (assignment keeps only its left side reinterpreted); every other node is unchanged; no cover expression remains at the root |
| Cover.ReinterpretProperty | src/parser.ts:1155-1160 | a spread property is reinterpreted itself, any other property through its value |
| Cover.ReinterpretCleans | src/parser.ts:1138-1170 | the result has no cover expression at any target position if and only if the patterns already in the input are clean |
| Cover.CleanIsFixedPoint | src/parser.ts:1139-1141 | a clean pattern is left unchanged |
| Cover.ReinterpretIdempotent | src/parser.ts:1138-1170 | reinterpreting twice equals reinterpreting once |
| Cover.ReinterpretOnlyRetags | src/parser.ts:1138-1170 | the rewrite keeps the tree's shape, children and their order; only tags change |
| Params.ValidateParamAsWritten | src/parser.ts:3273-3312 | every name joins the seen-set; in strict mode firstRestricted is untouched; once firstRestricted is set it never changes; a duplicate flag is only ever raised for a repeat |
| Params.SloppyDuplicateMissed | src/parser.ts:3285-3298 | after `eval` is recorded in sloppy mode, the repeat in `(eval, a, a)` is not flagged |
| Params.ValidateParam | src/parser.ts:3273-3312 | as the source, except that hasDuplicateParameterNames is set exactly when the name was already seen |
| Params.CorrectionOnlyAddsDuplicates | src/parser.ts:3273-3312 | the corrected check equals the source's whenever the source reaches its duplicate test, and flags every duplicate the source flags |
| Params.ValidateAllCollectsNames | src/parser.ts:3301-3311 | after validating a list, the seen-set holds exactly the earlier names plus the list's names |
| Params.DuplicateIffRepeat | src/parser.ts:3273-3312 | from a fresh start the duplicate flag is raised only for a name bound twice, as the source validates; with the corrected check it is raised exactly then |
| Params.ModesDifferOnlyInDuplicates | src/parser.ts:3273-3312 | the source's fold and the corrected one agree on every field but the duplicate flag, and the source's flag implies the corrected one |
| Params.AsWrittenAgreesUnlessRestricted | src/parser.ts:3273-3312 | in strict mode, or in sloppy mode when no name is restricted or reserved, the source's fold equals the corrected one |
| Params.AsWrittenMissesRepeat | src/parser.ts:3285-3298 | `(eval, a, a)` repeats a name; the source's fold records `eval` as firstRestricted and leaves the duplicate flag unset, while the corrected fold sets it |
| Params.FirstRestrictedIsFirstFlagged | src/parser.ts:3285-3294 | in sloppy mode, in either mode of the duplicate check, firstRestricted ends as the first restricted or reserved name, and stays unset when there is none |
| Params.StrictRestrictedSetsMessage | src/parser.ts:3275-3278 | in strict mode, in either mode of the duplicate check, a restricted name leaves the StrictParamName message and a stricted token |
| Params.CheckPatternIsValidateAll | src/parser.ts:1965-2000 | checkPatternParam validates exactly the pattern's bound names, left to right, with the source's validateParam or the corrected one, and leaves `simple` set only for a lone identifier |
| Params.CheckPatternParam | src/parser.ts:1965-2000 | the options stay simple only for a lone identifier after simple options, and an identifier joins the seen-set |
| Params.ParseFormalParameters | src/parser.ts:3332-3377 | rejects with DuplicateParameter exactly when the source's validation (or the corrected one) raised the duplicate flag and the context is strict or async or the list is not simple; a rejection always has a repeated name; with the corrected check, in strict mode, or with no restricted name, it rejects exactly when a name is bound twice in such a context; otherwise returns the parameters unchanged, `simple` exactly when all are identifiers, and the validation's stricted, firstRestricted and message |
| Params.RepeatAfterRestricted | src/parser.ts:3332-3377 | for `function f(eval, a, [a]) {}` the source's parseFormalParameters returns a non-simple list with firstRestricted `eval`, and the corrected check rejects it with DuplicateParameter |
| Chain.ParseChain | src/parser.ts:1582-1648 | succeeds exactly when no tagged template is optional or follows an optional link; a failure names the first such link and its kind; the result is the left-to-right fold of the links, wrapped in a ChainExpression if and only if some link used `?.`; the cover flags follow the last non-template link; the cover-initialized-name error is the incoming one, or else present exactly when some call link's spread argument recorded one; a bad `import()` arity is tolerated |
| Chain.LinkFlags | src/parser.ts:1591-1631 | a template link leaves the cover state alone; any other link clears isBindingElement and leaves an assignment target exactly for a plain member access; a call inherits the error its spread arguments recorded unless one was already recorded (src/parser.ts:816-821, 1408-1428) |
| Chain.ErrorAfterMeans | src/parser.ts:816-821 | an error recorded before the chain is kept; otherwise the chain's error is the first link's spread error, and there is one exactly when some link has one |
| Chain.FoldFlagsIsFlagsAfter | src/parser.ts:1591-1631 | updating the cover state link by link gives the reference state: flags from the last non-template link, error from the first record |
| Chain.FoldStateMeans | src/parser.ts:1582-1648 | the loop's expression, optional mark, cover state and tolerated errors after k links each equal their reference definitions |
| Chain.SpreadInitializerLeaks | src/parser.ts:816-821 | in `f(...{a = 1})` the spread argument's cover-initialized-name error survives the call, and isolating the chain raises it |
| Chain.ChainStep | src/parser.ts:1584-1637 | one link that is not a template conflict extends the expression, updates the optional mark and the cover flags, and keeps the prefix conflict-free |
| Chain.AnyOptionalMeans | src/parser.ts:1585-1588 | the optional mark is set exactly when some earlier link used `?.` |
| Chain.PlainChainNeverFails | src/parser.ts:1616-1648 | a chain with no `?.` link never fails and is never wrapped |
| Chain.OptionalWrapsWholeChain | src/parser.ts:1644-1645 | `a?.b.c` is one ChainExpression around the whole member chain |
| Chain.OptionalMemberNotAssignable | src/parser.ts:1607-1631 | a member access after `?.` is neither an assignment target nor a binding element |
| Comments.UptoBeyondPartition | src/comment-handler.ts:35-43 | a claim splits the pending list into claimed and kept entries without losing or duplicating one |
| Comments.InnerLoopClaims | src/comment-handler.ts:35-43 | the inner comments are the pending-leading entries starting at or before the block's end, in original order |
| Comments.InnerLoopKeeps | src/comment-handler.ts:35-43 | the leading list keeps exactly the unclaimed entries, in order |
| Comments.InnerLoopTrailing | src/comment-handler.ts:35-43 | with the corrected splice the trailing list loses exactly the claimed entries |
| Comments.AsWrittenSpliceDropsTrailing | src/comment-handler.ts:38-41 | the source's index-based splice removes an unclaimed trailing entry |
| Comments.CorrectedSpliceKeepsTrailing | src/comment-handler.ts:38-41 | the corrected splice keeps that entry |
| Comments.InsertInnerComments | src/comment-handler.ts:30-47 | only an empty block is affected, and only the leading, trailing and inner fields change |
| Comments.InsertInnerSpec | src/comment-handler.ts:30-47 | an empty block's inner comments are the pending-leading entries starting at or before its end, set only when non-empty; they leave the leading list, and (corrected) the trailing list |
| Comments.FindTrailingComments | src/comment-handler.ts:49-72 | with pending trailing entries the node takes those starting at or after its end, in order, and the rest are dropped; otherwise it takes over the stack top's trailing comments, and that field is deleted, exactly when their first comment has a range starting at or after the node's end; else nothing changes |
| Comments.PopFrom | src/comment-handler.ts:78-86 | pops exactly the stack entries on top that start at or after the node's start |
| Comments.EndingByPartition | src/comment-handler.ts:88-101 | moving a target's leading comments to the node loses and duplicates none |
| Comments.EndingByMembers | src/comment-handler.ts:88-101 | the moved comments are exactly those whose range ends at or before the node's start |
| Comments.FindLeadingComments | src/comment-handler.ts:74-113 | pops the stack entries starting at or after the node; with no target the node claims the pending-leading entries starting at or before its start, in order; with a target it claims the target's leading comments that end by its start, the target keeps the others and loses the field when none remain, and a target without leading comments gives nothing |
| Comments.VisitNode | src/comment-handler.ts:115-134 | a Program with statements is skipped; any other node gets the found leading and trailing comments as its fields exactly when they are non-empty, no other node's fields change, and it ends on top of the popped stack with its start offset, the trailing list empty |
| Comments.InsertInnerRoles | src/comment-handler.ts:30-47 | claiming inner comments moves them within the leading role without adding or losing any, only removes entries from the trailing list, and gives a field to the block only |
| Comments.FindTrailingRoles | src/comment-handler.ts:49-72 | the comments a node takes as trailing were in the trailing role and leave it: taken plus remaining is at most what was there |
| Comments.FindLeadingRoles | src/comment-handler.ts:74-113 | the comments a node takes as leading leave the leading role: taken plus remaining is exactly what was there |
| Comments.VisitNodeRoles | src/comment-handler.ts:115-134 | for a node without comment fields, a visit neither adds nor loses a comment in the leading role (pending, leading, inner), only drops comments from the trailing role, and gives fields to this node only |
| Comments.RunAttachesOncePerRole | src/comment-handler.ts:115-177 | over a stream that reports each node once, the leading role holds every scanned comment exactly as often as it was scanned and the trailing role at most as often: no comment is attached twice in one role |
| Comments.FromStartEachCommentOncePerRole | src/comment-handler.ts:22-177 | from a fresh handler, the leading role is exactly the scanned comments and the trailing role at most those |
| Comments.VisitComment | src/comment-handler.ts:136-165 | every comment appends one record to the flat list; when attaching, the same entry joins both pending lists |
| Comments.Visit | src/comment-handler.ts:167-177 | a comment event appends its record to the flat list, a node event leaves that list alone, attaching stays as set, and with attaching off nothing but the flat list changes |
| Comments.Run | src/esprima.ts:52-59 | visiting an event stream only extends the flat list, by at most one record per event, and keeps attaching as set |
| Comments.RunRecordsEveryComment | src/comment-handler.ts:167-177 | over any event stream the flat list grows by exactly the stream's comments, in order |
| Comments.DetachedRunOnlyRecords | src/comment-handler.ts:167-177 | with attach off, only the flat list changes |
| Comments.RunKeepsStackIncreasing | src/comment-handler.ts:115-134 | node start offsets strictly increase up the stack, over any event stream |
| Comments.RunKeepsTrailingSuffix | src/comment-handler.ts:30-72 | with the corrected splice the trailing list stays a suffix of the leading list, over any event stream |
| Comments.CommentBothTrailingAndLeading | src/comment-handler.ts:49-113 | in `a /*c*/ + b`, c becomes a's trailing comment and b's leading comment |
| Comments.SpliceLosesTrailingComment | src/comment-handler.ts:30-72 | in `f(/*c*/); {} /*d*/` the source attaches d nowhere, while the corrected splice makes d the block's trailing comment |
| JsxNames.ReadNameQualified | src/jsx-parser.ts:18-38 | a well-formed element name can be read back from its qualified name |
| JsxNames.SameQualifiedNameIffSameName | src/jsx-parser.ts:18-38 | two well-formed names have equal qualified names if and only if they are the same name |
| JsxLexer.ScanXHTMLEntity | src/jsx-parser.ts:89-142 | the entity scan consumes characters from the index onwards and never goes past the end |
| JsxLexer.EntityLoopStops | src/jsx-parser.ts:97-125 | the loop never consumes the quote and stops only at the end, at the quote, when invalid or after a `;` |
| JsxLexer.ScanXHTMLEntityClassifies | src/jsx-parser.ts:89-142 | the result is the reference classification of exactly the consumed characters |
| JsxLexer.DecimalEntityDecodes | src/jsx-parser.ts:127-132 | `&#NNN;` is consumed whole and decodes to its code unit |
| JsxLexer.HexEntityDecodes | src/jsx-parser.ts:127-135 | `&#xHH;` is consumed whole and decodes to its code unit |
| JsxLexer.NamedEntityDecodes | src/jsx-parser.ts:127-138 | `&name;` with a non-empty table entry is consumed whole and decodes to that entry |
| JsxLexer.PunctuatorIsOneCharacter | src/jsx-parser.ts:149-160 | each of `< > / : = { }` lexes as itself with end = start + 1 |
| JsxLexer.PlainStringScan | src/jsx-parser.ts:162-186 | a string body without `&` is its characters up to the closing quote, or to the end |
| JsxLexer.DotsLex | src/jsx-parser.ts:190-205 | `.` lexes as `...` exactly when two more dots follow, else as `.`, and the token spans its own text |
| JsxLexer.IdentifierLex | src/jsx-parser.ts:220-246 | an identifier starts with an identifier-start other than `\`, continues over identifier parts and `-`, holds no `\`, and extends as far as it can |
| JsxLexer.LexJSX | src/jsx-parser.ts:146-248 | the general scanner takes over exactly at the end or at a character that is not a JSX punctuator, quote, `.`, backquote or identifier start other than `\`; a punctuator or identifier token spans its own text from the index, an identifier as far as it can; a string starts at its quote and ends after the matching quote or at the end; a backquote becomes a template placeholder |
| JsxLexer.ScanString | src/jsx-parser.ts:162-186 | the string scan moves past at least one character unless already at the end, ends just after the matching quote or at the end, and yields at most one piece per character consumed |
| JsxLexer.NextJSXText | src/jsx-parser.ts:269-311 | the text token runs from the index to the first `{` or `<`, or to the end; its value is that slice with `\r\n` collapsed, and the line number rises once per terminator in it |
| JsxLexer.ScanTextStops | src/jsx-parser.ts:277-292 | JSX text runs up to, not including, the first `{` or `<`, or to the end |
| JsxLexer.ScanTextValue | src/jsx-parser.ts:277-292 | the text value is the consumed slice with every `\r\n` collapsed to `\r` |
| JsxLexer.ScanTextLines | src/jsx-parser.ts:283-290 | the line number rises once per line terminator of the value, so `\r\n` counts once |
| JsxElements.ChildrenSpec | src/jsx-parser.ts:529-550 | no empty text child is produced, every text child is a run without `{` or `<` whose raw text is a slice of the source ending at the end or at a `{` or `<`, and the loop stops only at the end or before a `<` |
| JsxElements.ParseJSXChildren | src/jsx-parser.ts:529-550 | the loop never moves backwards, yields only text and expression-container children, and never two text children in a row |
| JsxElements.TextFromSource | src/jsx-parser.ts:529-550 | the raw text of every text child is a slice of the source at or after the start index, ending at the end or before a `{` or `<` |
| JsxElements.StepShape | src/jsx-parser.ts:555-596 | one round of the loop crashes exactly on a fragment's opening tag meeting a closing element tag as written; otherwise errors only grow, by at most one; an opening tag keeps the stack (self-closing) or pushes one; a closing tag pops one or stops at the root with a closing tag recorded |
| JsxElements.ParseJSXElement | src/jsx-parser.ts:601-612 | a parsed element keeps its opening tag; a self-closing tag gives an element without children, closing tag or errors; corrected, a failure is only ever Unterminated and every other success has a closing tag |
| JsxElements.CloseCurrent | src/jsx-parser.ts:577-585 | a closing tag returns to the parent with the finished element as its last child, or stops at the root |
| JsxElements.SelfClosingStep | src/jsx-parser.ts:559-564 | a self-closing tag becomes a child with no children and no closing element; the stack is untouched |
| JsxElements.OpeningStep | src/jsx-parser.ts:565-568 | any other opening tag pushes the current element and starts an empty one |
| JsxElements.ClosingStep | src/jsx-parser.ts:570-586 | a closing tag records a tolerated error exactly when its name differs from the opening tag's, then pops or stops |
| JsxElements.ClosingFragmentStep | src/jsx-parser.ts:587-595 | `</>` stops the loop on a fragment; on an element it is a tolerated error and the loop continues |
| JsxElements.ParseComplexJSXElement | src/jsx-parser.ts:552-599 | the explicit-stack loop agrees with the step function `Run` over the same rounds; in corrected mode it never crashes and every success has a closing tag |
| JsxElements.RunCorrectedSafe | src/jsx-parser.ts:552-599 | the corrected loop never crashes, and any stop is at a closing tag |
| JsxElements.ParseEmitted | src/jsx-parser.ts:552-615 | parsing the tags of a well-formed element gives back that element with no errors, whatever follows |
| JsxElements.FragmentClosedByElementTag | src/jsx-parser.ts:570-573 | `<></a>` crashes as written and is a tolerated mismatch when corrected |
| JsxElements.UnterminatedLosesElement | src/jsx-parser.ts:555-614 | `<a><b>` at the end of input returns `a` with `b`'s children and no error as written, and fails when corrected |

## Left out

- The character scanner, comment scanning, Unicode identifier classes and the
  restricted/reserved word lists are not part of this model. They become
  parameters: `isIdentifierStart`, `isIdentifierPart`, `Words`, and the XHTML
  entity table.
- `ErrorHandler` message formatting, source positions, `loc`, markers and
  token capture are left out. A thrown error is an `Err` value, and a tolerated
  error is an entry in an appended list.
- Token-level parsing of sub-expressions is abstracted. Operands, call
  arguments, properties, templates, JSX attributes and expression containers
  arrive already parsed. A call link carries the first cover-initialized-name
  error recorded while its spread arguments were parsed (src/parser.ts:816-821). The container parser of `parseJSXChildren` is a
  function parameter.
- Precedence.ParseBinaryExpression: the operands are abstract values, and the
  cover-flag updates around each operand are stated separately
  (Cover.BinaryExpressionCover).
- Cover.BinaryExpressionCover: it takes the operands' cover states and assumes
  the climb itself did not fail. The interleaving of an operand's cover error
  with a later `??`/`&&`/`||` mix error is not modelled.
- Chain.ParseChain: the `super` head checks are not modelled. Neither is the
  async-arrow reinterpretation of call arguments, which depends on the
  following token.
- Params.ParseFormalParameters: it takes the parsed parameter list. The
  bracket and comma handling, `parseRestElement`'s errors and the
  arrow-function parameter check at src/parser.ts:2064-2067 are not modelled.
- JsxElements.ParseComplexJSXElement: its input is a sequence of rounds, each
  the children read, then a boundary tag. The end of input is the end of the
  rounds, and tag-level syntax errors inside `parseJSXBoundaryElement` are not
  modelled.
- JsxLexer.LexJSX: any character that is not JSX-specific is handed to the
  general scanner. This is a `Delegated` token here.
- JsxLexer: the model uses Dafny `char` for the source's UTF-16 code units.
  `parseInt` is exact here, whereas the source loses precision above 2^53
  before `String.fromCharCode` reduces the value modulo 2^16.
- JsxLexer.NextJSXText: the line number and line start are threaded through the
  text scan. They are not carried across the expression containers between
  text runs.
- Comments.VisitNode: the handler sees a node only as its `NodeShape`: Program,
  block, or other, with the body length. Node identity is a numeric id, and the
  comment fields live in maps keyed by that id.
- Comment `loc` objects are left out, because they carry only positions.
- Comments.RunAttachesOncePerRole: comments are compared by value (kind, text,
  range), so the bound is per distinct value. Two scanned comments with equal
  values count together. The trailing role may lose comments, because
  findTrailingComments drops pending entries that start before the node's end.
- JsxLexer: the XHTML entity lookup `XHTMLEntities[key]` also reads the
  object's prototype (`&constructor;` finds a function). The model's table is a
  plain map with no such entries.
- Precedence.BuildTable: override values are modelled as integers. A
  non-integer numeric precedence from the override is not representable.
- The statement grammar, class elements, module declarations, regular
  expression and numeric literal values, the top-level `parse`/`tokenize`
  wiring and packaging are outside this model.

## Findings

| source | as written | input that shows it | evidently intended | confidence | as-written member | corrected member |
|---|---|---|---|---|---|---|
| src/comment-handler.ts:38-41 | the trailing list is spliced at the index of the claimed leading entry, but the two lists are not aligned by index once a node cleared the trailing list | `f(/*c*/); {} /*d*/`: the block claims `c` and removes `d` from the trailing list, so `d` is attached to no node | remove the claimed entry itself from the trailing list | medium, not executed | Comments.AsWrittenSpliceDropsTrailing | Comments.InnerLoopTrailing |
| src/jsx-parser.ts:570-573 | a closing element tag reads the name of the current opening, which a fragment does not have | `<></a>`: `getQualifiedElementName(undefined)` throws a TypeError | a tolerated mismatch, as for `</>` on an element | high, not executed | JsxElements.FragmentClosedByElementTag | JsxElements.RunCorrectedSafe |
| src/jsx-parser.ts:555-598 | the end of input with open elements ends the loop and returns the innermost open element | `<a><b>`: the result is `a` with `b`'s (empty) children, no closing tag and no error | an error for an unterminated element | medium, not executed | JsxElements.UnterminatedLosesElement | JsxElements.ParseComplexJSXElement |
| src/parser.ts:3285-3298 | in sloppy mode the duplicate test sits in the same else-chain as the restricted-name test, so it is skipped once `firstRestricted` is set | `function f(eval, a, [a]) {}`: `a` repeats in a non-simple list, but no DuplicateParameter error is raised | every repeated name sets `hasDuplicateParameterNames` | medium, not executed | Params.RepeatAfterRestricted | Params.DuplicateIffRepeat |
