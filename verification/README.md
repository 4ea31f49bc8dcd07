# PG completion source, modelled in Dafny

This project models `pgCompletion` from `src/pg-parser.ts` of codemirror-lang-pg:
the autocompletion source for the PG problem-authoring language. For one completion
request it walks up the syntax tree from the cursor (`inside`), and then runs an
ordered pipeline of triggers:

1. at top level, a complete `PGMLBlock`/`PGTextBlock` suppresses completion;
2. at top level, after `->` in a method invocation, the two image snippets
   (`BEGIN_LATEX_IMAGE`, `BEGIN_TIKZ`) are the whole answer;
3. after `$` and word characters, the variable table (each name behind `$`) is the
   whole answer;
4. otherwise the six block-scaffold snippets (`BEGIN_PGML` … `BEGIN_SOLUTION`) are
   collected when their context holds, then the operator table.

Files and modules:

- `wrappers.dfy` (`Wrappers`): `Option`, standing for `undefined`/`null`.
- `chars.dfy` (`Chars`): the `\w` and `\s` classes of JavaScript regular expressions.
- `patterns.dfy` (`Patterns`): the four `matchBefore` patterns as predicates on the
  text before the cursor. Each is computed by a scan. Each has a ghost reading that
  splits the text the way the regular expression does. A lemma proves the two agree.
- `syntax.dfy` (`Syntax`): the tree as an ancestor chain, and the `inside` walk
  (`Inside`), with its level (`Incomplete` = 1, `Complete` = 2).
- `completion.dfy` (`PgCompletion`): options, requests, the trigger predicates, the
  pipeline `Respond`, and the lemmas about it.

The tree is the chain of nodes from the node at the cursor up to the document root.
`chain[i + 1]` is the parent of `chain[i]`. A node records only what the code reads:
its name, the name of its last child, the end offset of its first `ArrowOperator`
child, and whether it is a grammar top. The lookup tables are abstract sequences.

Each trigger has two readings. The first is the one the code computes, through the
walk and the scanning matchers. The second is independent of both: "the nearest
wanted ancestor reachable below the grammar top", and "the text splits as the
pattern says". The pipeline lemmas are stated in the independent reading.

## Model

| member | source | states |
|---|---|---|
| Syntax.Inside | src/pg-parser.ts:15-21 | The result is the nearest reachable node whose name is wanted; no node below it is wanted; nothing above the first grammar top is reached, but the top itself can match. Its level is Complete exactly when the node has a last child that is not the error node `⚠`. The result is undefined exactly when no reachable node is wanted. |
| Syntax.InsideIsNearest | src/pg-parser.ts:16-18 | Conversely, whenever a node is the nearest wanted reachable node, the walk returns exactly that node with its level. |
| Syntax.InsideStopsAtTop | src/pg-parser.ts:16-19 | Two chains that agree up to and including a grammar-top node give the same walk result: nodes above the top are never inspected. |
| Patterns.ArrowMatchIff | src/pg-parser.ts:38 | The scan for `->\w*$` holds exactly when the text splits into anything, `->`, and a run of word characters. |
| Patterns.SigilMatchIff | src/pg-parser.ts:56 | The scan for `\$\w*$` holds exactly when the text splits into anything, `$`, and a run of word characters. |
| Patterns.BlankThenWordIff | src/pg-parser.ts:67 | The scan for `^\s*\w*` (anchored at the cursor) holds exactly when the text is blanks followed by word characters. |
| Patterns.BlankThenBIff | src/pg-parser.ts:67 | The scan for `^\s*B\w*` (anchored at the cursor) holds exactly when the text is blanks, `B`, then word characters. |
| Patterns.SigilExcludesArrow | src/pg-parser.ts:38-56 | No text matches both the `->` pattern and the `$` pattern. |
| Patterns.BlankThenBIsBlankThenWord | src/pg-parser.ts:67 | Every text the `B` pattern matches is matched by the plain word pattern, so the `B` pattern only adds automatic (non-explicit) requests. |
| PgCompletion.Respond | src/pg-parser.ts:8-89 | Suppression and the directly built arrow answer happen only in the top-level grammar. |
| PgCompletion.InCompleteBlockAgrees | src/pg-parser.ts:29 | The guard holds exactly when the nearest reachable PGML or PGText block is complete. |
| PgCompletion.ArrowAgrees | src/pg-parser.ts:31-40 | The arrow trigger holds exactly when the nearest `MethodInvocation` has an `ExpressionStatement` parent or the request is explicit. It also needs an `ArrowOperator` child, text matching `->\w*$`, and either the arrow ending at the cursor or a word match before the cursor. |
| PgCompletion.BlocksAgree | src/pg-parser.ts:64-67 | The block trigger holds exactly at top level, outside both heredoc bodies. The text must also be blanks then word characters on an explicit request, or blanks then `B` then word characters. |
| PgCompletion.OperatorsAgree | src/pg-parser.ts:80-82 | The operator trigger holds exactly when a `CallExpression`, `FunctionName` or `Identifier` is reachable and no `Arguments` or `ParenthesizedArguments` is. |
| PgCompletion.SuppressedExactly | src/pg-parser.ts:23-29 | The answer is "no completion" exactly when the grammar is top-level and the nearest PGML/PGText block is complete. An incomplete block, or a nested grammar, never suppresses. |
| PgCompletion.ArrowExactly | src/pg-parser.ts:23-53 | The arrow answer is returned exactly at top level, when not suppressed and the arrow context holds. |
| PgCompletion.ArrowAnswer | src/pg-parser.ts:39-50 | The arrow answer starts at the word match before the cursor, or at the cursor when there is none. It holds exactly `BEGIN_LATEX_IMAGE` (boost 99) then `BEGIN_TIKZ` (boost 98), both of type interface, each with its BEGIN/blank/END template. |
| PgCompletion.ImageSnippetsAre | src/pg-parser.ts:43-49 | The image snippets are the two literal options above, in that order. |
| PgCompletion.SigilOverrides | src/pg-parser.ts:56-59 | Unless suppressed, text ending in `$` and word characters is answered with exactly the variable table, in order, each name behind `$`, of type variable, with no snippet or operator. |
| PgCompletion.AccumulatedOptions | src/pg-parser.ts:62-87 | Otherwise the list is the six block snippets, in order, with their labels, boosts 99 down to 94, type `type` and BEGIN/blank/END templates, when the block context holds, followed by the operator names, unchanged, of type variable, when the operator context holds. Its length is exactly the sum. |
| PgCompletion.JoinedShape | src/pg-parser.ts:62-85 | Pushing the block snippets and then the operator options yields the six block snippets first, in order, with boosts 99 down to 94 and their BEGIN/blank/END templates, then every operator name unchanged, and nothing else. |
| PgCompletion.NestedGrammarHasNoSnippets | src/pg-parser.ts:23-78 | In a nested grammar the answer is always a plain list with no snippet. |
| PgCompletion.BlockSnippetsAre | src/pg-parser.ts:69-77 | The block snippets are `BEGIN_PGML`, `BEGIN_PGML_HINT`, `BEGIN_PGML_SOLUTION`, `BEGIN_TEXT`, `BEGIN_HINT`, `BEGIN_SOLUTION`, with boosts 99 down to 94, of type type. |
| PgCompletion.SnippetsRanked | src/pg-parser.ts:70-76 | Snippet boosts strictly decrease along the list. Every label starts with `BEGIN_`. Every template is the label, an empty editable line, then `END_` and the same name. |
| PgCompletion.SnippetLabelsDistinct | src/pg-parser.ts:70-76 | Distinct names give snippets with distinct labels. |
| PgCompletion.ArrowAfterMethodCall | src/pg-parser.ts:31-50 | Example: `$img->` in a bare method-call statement at top level is answered directly, from the cursor, with exactly `BEGIN_LATEX_IMAGE` (boost 99) and `BEGIN_TIKZ` (boost 98), of type interface, with their BEGIN/blank/END templates. |
| PgCompletion.SuppressedInPgmlBlock | src/pg-parser.ts:29 | Example: inside a complete PGML block at top level nothing is offered, even after `$`. |
| PgCompletion.IncompletePgmlBlockDoesNotSuppress | src/pg-parser.ts:18-59 | Example: a PGML block whose last child is the error node does not suppress; `$` then gives the variables. |
| PgCompletion.BlocksOnEmptyLine | src/pg-parser.ts:64-87 | Example: an empty top-level line with an explicit request gives the six block snippets and nothing else. |

## Behaviour worth noting

- No deduplication by label is done. An operator named like a block snippet would
  appear twice, and `AccumulatedOptions` states the list with every entry kept.
- At top level the embedded-block guard runs before the `$` trigger. So a complete
  PGML/PGText block at top level suppresses completion even after `$`
  (`SigilOverrides`, `SuppressedInPgmlBlock`).
- The top node's own name is compared before the walk stops, so the top node can
  itself match.
- Operators and variables are tagged `variable`, image snippets `interface`, and block
  snippets `type`.
- The `B` prefix applies whether or not the request is explicit.

## Left out

- The CodeMirror/Lezer library: `syntaxTree(...).resolveInner` (line 10) is replaced by
  the ancestor chain given as input, and `getChild('ArrowOperator')` by the node's
  `arrowEnd` field.
- `matchBefore`'s 250-character window is not modelled. On a long line the window
  starts 250 characters before the cursor, and `^` then means the window start. The
  request's `before` text is taken to be the text `matchBefore` searches. The patterns
  are anchored at the cursor, as `matchBefore` does.
- The `/\w*/` match on line 39 is an input (`wordFrom`). Anchored at the cursor it
  always matches, at the start of the trailing word run, so the library never reports
  None there. The model still allows None, a case the program never reaches, and
  `wordFrom` is not tied to `before`. So the `from` of the arrow answer is not stated
  in terms of `before`.
- `completeFromList` (lines 57-59, 87) is not modelled. It computes `from` from a token
  match before the cursor, sets `validFor`, and returns null on an automatic request
  with no token. The model returns the list it is given (`Listed`), without a `from`.
- `snippetCompletion`: the template is kept as a string. Its `${}` placeholder parsing
  and its `apply` function are not modelled.
- The contents of `pgVariables` and `pgOperators`: src/pg-variables is not part of this
  model. Both tables are abstract sequences in iteration order.
- The grammar import and the `pgPerlParser` configuration (lines 5, 91-93), which only
  wire the source into the editor.
- The editor UI, and how boosts order the popup.
