# ldoc_gen in Dafny

`ldoc_gen` turns Lua source files annotated in the LuaLS/EmmyLua comment style
(`---@param name type desc`, `---@return type`, `---@class Name`, …) into files
in the LDoc dialect. This project models the core of one file's trip through
the tool and proves properties of that model:

* **Text fixes** (`Pipeline`): every `?` becomes `|nil`, then every `@type` is
  deleted, each as one left-to-right, non-overlapping pass (`Text.ReplaceAll`,
  split at its first occurrence by `Text.ReplaceAllSplit`).
* **Chunk assembly** (`Assembly`): the top-level nodes of the parsed file are
  walked in order. Runs of comments on consecutive lines are collected, and a
  run is paired with the node that starts on the line right after its last
  comment. The state machine is a function on node indices (`Step`, `Run`).
  The loop itself is the method `AssembleChunks`, proved to produce exactly
  the chunks of the groups `Run` emits.
* **Comment parsing** (`Comments`, `Patterns`, `TypeGrammar`): doc comments
  are kept and each one is classified by the first pattern that matches it:
  param, return, see, class, classmod, nodoc, then alias, which aborts. The
  patterns are hand-written recognisers. The recursive type sub-pattern is a
  recursive-descent recogniser that returns every end position a match can
  have, in the regex engine's backtracking order. Its first candidate gives the
  `ty` capture, and the `name`, `desc` and `link` captures follow from it.
* **Declaration classification** (`Decl`): `node_to_decl` on an abstract
  syntax node (`Tree.Node`: kind, start row, text, field-tagged children).
* **Rendering** (`Attr`, `Chunks`):
  * each attribute's LDoc line, including the `fun(`/`{` type collapse for parameters;
  * the `Class`/`ClassMod` interplay;
  * removal of a function's body text from its declaration text.
  
  `Chunk::to_ldoc_string` is the method `Chunks.ToLdocString`, whose two loops
  are `PushBody` and `PushAttributes`.
* **Regrouping** (`Grouping`, `Pipeline`): chunks with a `NoDoc` attribute are
  dropped. The rest are split into owners (a `Class` attribute) and members.
  A name→bucket map is seeded with `_NO_NAME` and every owner name, and the
  members are assigned to buckets. The output order is each named owner
  followed by its bucket, then the `_NO_NAME` bucket. The order is a sequence
  of chunk indices (`Grouping.RegroupSpec`), built by the method
  `Grouping.Regroup`. Its text is joined by `Pipeline.WriteChunks`.

Every `panic!`, `expect` and `todo!` of the code that does not come from
UTF-8 decoding is a `Failures.Panic` value inside a `Result`, so the model
states exactly which parsed inputs abort for a missing child, an unsupported
name or an unrenderable attribute. The decoding aborts are listed under
"## Left out".

Points where the code's behaviour is easy to misread, all modelled as the
code has them:

* **Duplicate owner names.** Every owner name is inserted into the map
  before any member is assigned, and each owner then reads its name's
  bucket, so a second owner with the same name does not shadow the first:
  both owners are followed by the shared members, which are written twice
  (`Grouping.SharedNameRepeatsMembers`). An owner named `_NO_NAME` likewise
  repeats the fallback bucket (`Grouping.NoNameOwnerRepeatsFallback`).
* **Completeness.** An owner without a name (an `Other` or `Function(None)`
  declaration) is never written (`Grouping.RegroupMembers`), so not every
  non-`NoDoc` chunk is rendered once. Exactly-once holds only under the
  conditions of `Grouping.RegroupIsPermutation`.
* **Type re-serialisation.** The renderer does not rewrite types in general:
  it only collapses `fun(…` to `function` and `{…` to `table`, and only for
  parameters. `?` is replaced in the whole file text before parsing
  (`Pipeline.QuestionMarkReplaced`), and `@type` is deleted there too
  (`Pipeline.PreprocessDeletesType`).
* **Alias extraction.** `extract_alias` is a stub that returns no attributes
  and leaves the text alone (`Attr.ExtractAlias`).
* **`NoDoc`.** The code uses `Attribute::NoDoc` and a nodoc pattern without
  declaring either. `NoDoc` is a payload-free constructor here, and the nodoc
  pattern is a parameter `isNoDoc`. The renderer's `match` has no arm for
  `NoDoc`, so rendering it is the failure `NoDocHasNoRendering`. That failure
  is never reached (`Pipeline.AssembledFileRenders`).

## Model

| member | source | states |
|---|---|---|
| Tree.FieldIndex | src/main.rs:313-315 | the index found is the first child tagged with the field; `None` exactly when no child is |
| Tree.ChildByFieldName | src/main.rs:340 | a node is returned if and only if some child fills the field |
| Tree.KindIndex | src/main.rs:297-299 | the index found is the first child of that kind; `None` exactly when no child has it |
| Tree.ChildOfKind | src/main.rs:309-311 | the child returned has the kind asked for; `None` exactly when no child has it |
| Decl.VariableListName | src/main.rs:301-304 | a name is found only when the node has a `variable_list` child |
| Decl.VariableFrom | src/main.rs:313-318 | succeeds exactly when the list has a `name` field, giving a `Variable` of the node named by that field's text; fails with the "no name" abort otherwise |
| Decl.VariableDeclCases | src/main.rs:296-322 | a variable declaration: an assignment child without a variable list aborts; otherwise the (assignment's or own) variable list's `name` text names the `Variable`, a list without a name aborts, and neither child gives `Other` |
| Decl.AssignmentCases | src/main.rs:324-338 | an assignment statement: its variable list's `name` text names the `Variable`, a list without a name aborts, no list gives `Other` |
| Decl.NodeToDecl | src/main.rs:292-362 | the declaration keeps the node; a function comes only from `function_declaration` and is named; a variable only from variable or assignment statements; all other kinds give `Other` |
| Decl.DeclName | src/main.rs:129-133 | no grouping name exactly for `Other` and `Function(None)` |
| Decl.FunctionDeclCases | src/main.rs:339-359 | a function declaration without a name field is `Other`; an identifier name gives `Function(Some(name))`; an index expression gives its `table` text or the "no table" abort; any other name kind aborts |
| Decl.DeclaredFunctionsAreNamed | src/main.rs:339-361 | a classified node always has a grouping name unless it is `Other` |
| Decl.NodeToDeclFailures | src/main.rs:292-362 | the only aborts: a missing table or an unsupported name kind for functions, a missing variable name for the two statement kinds, and nothing for other kinds |
| Attr.Render | src/attr.rs:31-73 | rendering fails exactly for `Alias` (a `todo!`) and `NoDoc`; every rendered line starts with `---` |
| Attr.ExtractAlias | src/attr.rs:105-109 | no attributes, and the text unchanged |
| Attr.CollapseType | src/attr.rs:34-40 | no contract of its own: the parameter type collapse; stated by `Attr.CollapseTypeShape` and `Attr.ParamCollapseIgnoresStructure` |
| Attr.CollapseTypeShape | src/attr.rs:34-40 | the collapsed type is `function`, `table` or the type itself; it is unchanged exactly when it starts with neither `fun(` nor `{` (or is already `function`/`table`); collapsing twice changes nothing |
| Attr.ParamCollapseIgnoresStructure | src/attr.rs:34-40 | any two function types, or any two `{` types, give the same parameter line |
| Attr.ParamDescAppends | src/attr.rs:41-50 | a description adds exactly a blank and the description to the parameter line |
| Attr.ReturnIgnoresName | src/attr.rs:52-63 | the return name never changes the line, which starts `---@treturn ` with the uncollapsed type |
| Attr.SeeIgnoresDesc | src/attr.rs:68-70 | a see line is `---@see link` whatever the description |
| Text.SkipBlank | src/attr.rs:89 | `[ \t]*`: every character skipped is a blank and the next one is not |
| Text.WordEnd | src/attr.rs:89 | `\w*`: every character skipped is a word character and the next one is not |
| Text.LineEnd | src/attr.rs:89 | `.*`: stops at the first newline or at the end |
| Text.ReplaceAll | src/main.rs:56-57 | no contract of its own: `str::replace` with a non-empty pattern, as also used at src/chunk.rs:57; stated by `Text.ReplaceAllSplit`, `Text.ReplaceAllAbsent`, `Text.ReplaceAllKeepsOut` and `Text.ReplaceAllByEmptyShrinks` |
| Text.ReplaceAllSplit | src/main.rs:56-57 | when the pattern first starts after a prefix, the prefix is kept, that occurrence becomes the replacement, and the pass continues on the rest |
| Text.ReplaceAllKeepsOut | src/main.rs:56-57 | a character in neither the text nor the replacement is not in the result |
| Text.ReplaceAllRemovesChar | src/main.rs:56 | replacing a one-character pattern by text without it removes the character entirely |
| Text.ReplaceAllAbsent | src/main.rs:56-57 | text in which the pattern never starts is returned unchanged |
| Text.ReplaceAllByEmptyShrinks | src/chunk.rs:57 | deleting occurrences never lengthens the text |
| TypeGrammar.Ty | src/attr.rs:89 | every candidate end of the type pattern lies strictly after its start and inside the line |
| TypeGrammar.Union | src/attr.rs:89 | the `\|` repetition never ends before its start and offers "no repetition" last |
| TypeGrammar.UnionAll | src/attr.rs:89 | the union after each candidate stays inside the bounds of the candidates |
| TypeGrammar.Alt | src/attr.rs:89 | every alternative's end lies after its start |
| TypeGrammar.Primary | src/attr.rs:89 | every primary alternative's end lies after its start |
| TypeGrammar.Table | src/attr.rs:89 | a `table<…>` ends after its start |
| TypeGrammar.TableComma | src/attr.rs:89 | the `,` value part ends after the key's bound |
| TypeGrammar.Fun | src/attr.rs:89 | a `fun(…)` ends after its start |
| TypeGrammar.Arg | src/attr.rs:89 | an argument ends after its start |
| TypeGrammar.ArgRep | src/attr.rs:89 | the argument repetition offers "no further argument" last and never ends before its start |
| TypeGrammar.ArgRepAll | src/attr.rs:89 | the repetition after each candidate stays inside the candidates' bounds |
| TypeGrammar.FunClose | src/attr.rs:89 | the closing `)` and return type end after the argument list's bound |
| TypeGrammar.FunReturn | src/attr.rs:89 | the optional return type never ends before its start |
| TypeGrammar.Delimited | src/attr.rs:89 | a `{…}` or `"…"` primary ends after its opening character |
| TypeGrammar.Closers | src/attr.rs:89 | exactly the positions after each closer in the line, in strictly decreasing order (the longest `.*` first) |
| TypeGrammar.Word | src/attr.rs:89 | a word matches exactly at a word character, its longest form first |
| TypeGrammar.Countdown | src/attr.rs:89 | the ends `hi` down to `lo + 1`, the longest first |
| TypeGrammar.Suffix | src/attr.rs:89 | `(\[\])?\??` always succeeds, never moving back |
| TypeGrammar.Question | src/attr.rs:89 | `\??` always succeeds, never moving back |
| TypeGrammar.SuffixAll | src/attr.rs:89 | a suffix follows every candidate, so some candidate survives |
| TypeGrammar.CloseParen | src/attr.rs:89 | the `)` after an inner type ends inside the candidates' bounds |
| TypeGrammar.CloseWith | src/attr.rs:89 | a literal closer after each candidate ends inside the candidates' bounds |
| TypeGrammar.TyStart | src/attr.rs:89 | a type can only start at `{`, `(`, `"` or a word character |
| TypeGrammar.TyAtBlankFails | src/attr.rs:89 | a type never starts at a blank or at the end, so a blank run before a type can only succeed at its full length |
| TypeGrammar.UnionAllHead | src/attr.rs:89 | the first union candidate comes from the first input candidate |
| TypeGrammar.SuffixAllHead | src/attr.rs:89 | the first suffixed candidate comes from the first input candidate |
| TypeGrammar.TyHeadFromPrimary | src/attr.rs:89 | when a primary matches, the type capture is its first candidate extended by the longest suffix and union |
| TypeGrammar.UnionHead | src/attr.rs:89 | the first union candidate is the longest repetition that matches |
| TypeGrammar.UnionStops | src/attr.rs:89 | without a following `\|` the union stops where it started |
| TypeGrammar.SuffixHead | src/attr.rs:89 | the first suffix candidate takes as much of `[]?` as is there |
| TypeGrammar.PrimaryAtWord | src/attr.rs:89 | at a word not starting `table<` or `fun(`, the only primary is that word |
| TypeGrammar.TyOfPlainWord | src/attr.rs:89 | a lone word not followed by `[`, `?` or `\|` is exactly the type capture |
| TypeGrammar.BracedHeadIsLastBrace | src/attr.rs:89 | a `{` type capture reaches at least the last `}` of the line |
| Patterns.AfterMarker | src/main.rs:213 | the position after the `---` marker lies inside the line |
| Patterns.AfterTag | src/attr.rs:89 | the position after a tag and its blank run lies inside the line |
| Patterns.TrailingDesc | src/attr.rs:89 | a description needs a blank right after the type; it is the rest of the line after that blank run, without the final newline; it exists whenever a blank follows and the line has no inner newline |
| Patterns.ParamNameEnd | src/attr.rs:89 | a parameter name is non-empty |
| Patterns.MatchParam | src/attr.rs:89 | a match gives a `Param` |
| Patterns.MatchReturn | src/attr.rs:92 | a match gives a `Return` |
| Patterns.MatchSee | src/attr.rs:94 | a match gives a `See` |
| Patterns.MatchClass | src/attr.rs:96 | a match gives a `Class` |
| Patterns.ParamShape | src/attr.rs:89 | the name is a non-empty word or `...`; the type is non-empty and starts with `{`, `(`, `"` or a word character |
| Patterns.ParamDescFollowsType | src/attr.rs:89 | when there is a description, the type ends right before a blank |
| Patterns.ReturnNameIsFirstWord | src/attr.rs:92 | the name is a non-empty word; it is present exactly when a blank run and a word character follow the type; no name means no description |
| Patterns.SeeLinkShape | src/attr.rs:94 | the link starts and ends with a word character and holds word characters and at most one dot |
| Patterns.IsClassMod | src/attr.rs:97 | no contract of its own: the `classmod` prefix pattern; stated by `Patterns.ClassModIsNotClass` and `Comments.ClassModLine` |
| Patterns.IsAlias | src/attr.rs:98-100 | no contract of its own: the `alias` pattern as a yes/no test; its effect is stated by `Comments.HasAliasSnoc` and `Comments.ParseComments` |
| Patterns.ClassModIsNotClass | src/attr.rs:96-97 | a `@classmod` line never matches the class pattern |
| Patterns.TagsExclusive | src/attr.rs:89-96 | two tags that differ somewhere cannot both start a line |
| Patterns.AttributePatternsExclusive | src/attr.rs:89-96 | at most one of the param, return, see and class patterns matches a line |
| Comments.Classify | src/main.rs:227-283 | never yields an alias attribute; a `Param` only when the param pattern matches; body text exactly when no pattern matches |
| Comments.Kept | src/main.rs:213-221 | the filter never adds lines |
| Comments.IsDocComment | src/main.rs:213-219 | no contract of its own: the doc-comment regex, a `---` prefix test; stated by `Comments.KeptIsFilter` |
| Comments.KeptIsFilter | src/main.rs:213-221 | exactly the doc comments of the run are kept |
| Comments.KeptAppend | src/main.rs:214-221 | the filter keeps the lines' order: filtering a concatenation concatenates the filtered parts |
| Comments.KeptKeepsDoc | src/main.rs:214-221 | a doc comment is kept in place, between the lines kept before and after it |
| Comments.BodyOf | src/main.rs:280-282 | every body line is one that no pattern matches |
| Comments.AttrsOf | src/main.rs:281-287 | no contract of its own: the attributes pushed, in line order; stated by `Comments.AttrsOfSnoc`, `Comments.NoAliasAttrs` and `Comments.BodyAndAttrsPartition` |
| Comments.ParseResult | src/main.rs:208-290 | no contract of its own: `parse_comments` as a value; the method `Comments.ParseComments` is proved to return it |
| Comments.ParseComments | src/main.rs:208-290 | the loop returns the body lines and attributes in order, or the alias abort when any doc comment is an alias line |
| Comments.BodyAndAttrsPartition | src/main.rs:225-288 | without an alias line, every doc comment goes to exactly one of body and attributes |
| Comments.NoAliasAttrs | src/main.rs:227-279 | no parsed attribute is an `Alias` |
| Comments.AttrsOfSnoc | src/main.rs:281-287 | one more line appends at most its own body entry or attribute: both lists keep the lines' order |
| Comments.HasAliasSnoc | src/main.rs:278-279 | one more line adds an alias exactly when it is one |
| Comments.KeptDropsNonDoc | src/main.rs:214-221 | a line that is not a doc comment contributes nothing wherever it stands |
| Comments.ClassModLine | src/main.rs:266-275 | a `@classmod` line is `ClassMod`, never `Class` |
| Comments.NoDocLine | src/main.rs:274-277 | a nodoc line is `NoDoc` unless an earlier pattern claims it |
| Chunks.BodyText | src/chunk.rs:24-28 | each body line adds at least its newline |
| Chunks.AttrText | src/chunk.rs:30-51 | an attribute adds nothing exactly when it is a `ClassMod` or cannot be rendered |
| Chunks.DeclText | src/chunk.rs:53-65 | the declaration text never grows, and it is verbatim for variables and others |
| Chunks.AttrsText | src/chunk.rs:30-51 | no contract of its own: the attribute lines in list order; stated by `Chunks.AttrsTextSnoc`, `Chunks.AttrsTextAppend` and `Chunks.PushAttributes` |
| Chunks.FirstFailure | src/chunk.rs:30-51 | no contract of its own: the first attribute rendering that fails; stated by `Chunks.FirstFailureNone` and `Chunks.FirstFailureIsFirstUnrenderable` |
| Chunks.ChunkText | src/chunk.rs:20-71 | no contract of its own: `Chunk::to_ldoc_string` as a value; stated by `Chunks.ChunkFrame` and `Chunks.ChunkTextFails`, and the method `Chunks.ToLdocString` is proved to return it |
| Chunks.ToLdocString | src/chunk.rs:20-71 | the method's result is `ChunkText`: a newline, the body lines, the attribute lines, the declaration text and a newline, or the first rendering failure |
| Chunks.PushBody | src/chunk.rs:24-28 | the body loop builds `BodyText` |
| Chunks.PushAttributes | src/chunk.rs:30-51 | the attribute loop builds `AttrsText`, or stops at the first attribute that cannot be rendered with its failure |
| Chunks.AttrTextCases | src/chunk.rs:31-49 | a `Class` is a classmod line when the chunk has a `ClassMod`, its rendering otherwise; any other renderable non-`ClassMod` attribute is its rendering and a newline |
| Chunks.FailureDecidesChunk | src/chunk.rs:44-48 | a failure in the first attributes is the failure of the chunk |
| Chunks.FirstFailureSnoc | src/chunk.rs:30-51 | one more attribute can only add its own failure |
| Chunks.AttrTextIsLine | src/chunk.rs:30-51 | every attribute that produces output produces a `---` line ending with a newline |
| Chunks.LaterAttrsKeepFailure | src/chunk.rs:30-51 | a failure in a prefix stays the first failure of the whole list |
| Chunks.FirstFailureNone | src/chunk.rs:30-51 | no failure exactly when no attribute is an `Alias` or `NoDoc` |
| Chunks.FirstFailureIsFirstUnrenderable | src/chunk.rs:30-51 | the failure is that of an attribute all of whose predecessors render |
| Chunks.ChunkFrame | src/chunk.rs:21-70 | a rendered chunk starts with a newline and ends with the declaration text and a newline |
| Chunks.ChunkTextFails | src/chunk.rs:20-71 | rendering a chunk fails exactly when an attribute is an `Alias` or `NoDoc` |
| Chunks.AttrsTextAppend | src/chunk.rs:30-51 | splitting the attributes splits their text |
| Chunks.AttrsTextSnoc | src/chunk.rs:30-51 | one more attribute adds its own text at the end |
| Chunks.ClassModAddsNothing | src/chunk.rs:31-32 | a `ClassMod` adds no text wherever it stands |
| Chunks.BodyTextVerbatim | src/chunk.rs:24-28 | each body line appears verbatim, in order, followed by a newline |
| Chunks.ClassRendering | src/chunk.rs:33-45 | a `Class` is `---@classmod ty` when a `ClassMod` is anywhere in the list, and `---` plus `---@module ty` otherwise |
| Chunks.DeclTextVerbatim | src/chunk.rs:53-65 | variable and other declarations, and functions without a body field, are emitted verbatim |
| Chunks.FunctionBodyRemoved | src/chunk.rs:56-58 | a function whose text is `pre + body + post`, with the body first occurring after `pre`, is emitted as `pre` followed by `post` with every further copy of the body deleted; with no further copy, as `pre + post` |
| Assembly.Step | src/main.rs:79-106 | no contract of its own: one iteration of the assembly loop; stated by `Assembly.StepKeepsPending`, `Assembly.StepKeepsGroups` and `Assembly.EmittedIff` |
| Assembly.Run | src/main.rs:78-107 | no contract of its own: the state after a prefix of the nodes; stated by `Assembly.RunStep`, `Assembly.RunInv` and `Assembly.RunGrows` |
| Assembly.StepKeepsPending | src/main.rs:80-88 | after each node the pending run is comments on consecutive lines, the last on `prev_line` |
| Assembly.StepKeepsGroups | src/main.rs:89-102 | every emitted group stays well formed and in node order, including the one just emitted |
| Assembly.RunStep | src/main.rs:78-107 | the state after one more node is one more step |
| Assembly.RunInv | src/main.rs:78-107 | the invariant of the loop holds after every prefix of the nodes |
| Assembly.RunGrows | src/main.rs:78-107 | emitted groups are never withdrawn, and later groups document later nodes |
| Assembly.GroupsWellFormed | src/main.rs:78-107 | every group is a non-empty comment run on consecutive lines, then a non-comment node on the next line; groups follow the file's order |
| Assembly.EmittedIff | src/main.rs:89-102 | a node gets a chunk if and only if it is a non-comment starting right after the pending run, and that chunk holds exactly the pending run |
| Assembly.NodesAt | src/main.rs:91 | the nodes picked are those at the indices, in order |
| Assembly.BuildAll | src/main.rs:91-99 | a successful build has one chunk per group |
| Assembly.BuildAllKeepsFailure | src/main.rs:91 | a failure while building earlier chunks is the failure of the whole file |
| Assembly.BuildAllSnoc | src/main.rs:91-99 | one more group appends its chunk or fails with it |
| Assembly.BuildAllUnfold | src/main.rs:91-99 | the build succeeds with given chunks exactly when the earlier ones do and the last group builds the last chunk |
| Assembly.ChunksOfInit | src/main.rs:91-99 | chunk-for-group correspondence holds for every prefix |
| Assembly.BuildChunk | src/main.rs:91-98 | no contract of its own: parse the group's comments, then classify its node; stated by `Assembly.BuildAllSnoc` and `Assembly.BuildAllOk` |
| Assembly.BuildAllOk | src/main.rs:91-99 | when every group builds its chunk, the build yields exactly those chunks |
| Assembly.RunInRange | src/main.rs:78-107 | every index the loop holds names a node already seen |
| Assembly.EmitStep | src/main.rs:91-93 | a failure of the chunk emitted at a node is the failure of the whole file |
| Assembly.CommentAdvance | src/main.rs:80-88 | a comment is appended to the pending run, which is cleared first when the comment is not on the next line |
| Assembly.EmitAdvance | src/main.rs:89-102 | emitting adds the pending run's group and resets the state |
| Assembly.NodesAtSnoc | src/main.rs:87 | appending an index appends its node |
| Assembly.CommentTracks | src/main.rs:80-88 | the loop's update on a comment follows the step function |
| Assembly.EmitTracks | src/main.rs:89-102 | on an emitting node the loop fails as the whole file fails, or appends the chunk and resets |
| Assembly.IdleTracks | src/main.rs:89-106 | any other node emits nothing and clears only an empty run |
| Assembly.AssembleSpec | src/main.rs:69-107 | no contract of its own: the chunks of all groups, or the first failure; the method `Assembly.AssembleChunks` is proved to return it, and `Assembly.AssembledInOrder` and `Assembly.AssembledHaveNoAlias` state its properties |
| Assembly.AssembleChunks | src/main.rs:69-107 | the loop yields exactly the chunks of the groups the state machine emits, or the first failure |
| Assembly.AssembledInOrder | src/main.rs:78-107 | chunks appear in node order: each group starts after the earlier groups' declarations |
| Assembly.GapBreaksRun | src/main.rs:81-85 | a comment not on the line after the previous one starts a new run |
| Assembly.NonAdjacentNodeEmitsNothing | src/main.rs:89-106 | a non-adjacent node leaves a pending run alone, or resets the state when nothing is pending |
| Assembly.AssembledHaveNoAlias | src/main.rs:91 | no assembled chunk carries an `Alias` attribute |
| Grouping.Survivors | src/main.rs:109-116 | the chunks without `NoDoc` are indices into the list |
| Grouping.Owners | src/main.rs:109-122 | owners are indices into the list |
| Grouping.Rest | src/main.rs:109-122 | members are indices into the list |
| Grouping.OwnerNames | src/main.rs:128-135 | every named owner's name is a key |
| Grouping.KeyOf | src/main.rs:137-149 | a member goes to its own name or to `_NO_NAME`, and always to a key of the map |
| Grouping.KeyIn | src/main.rs:137-149 | a selection of buckets never holds more than the members |
| Grouping.SeedBuckets | src/main.rs:124-135 | the loop builds the map from `_NO_NAME` and every owner name to an empty bucket |
| Grouping.AssignMembers | src/main.rs:137-149 | the loop keeps the keys and fills each bucket with the members that go there, in order |
| Grouping.Serialise | src/main.rs:151-175 | the loop writes each named owner followed by its bucket, in owner order, then the `_NO_NAME` bucket |
| Grouping.Keys | src/main.rs:124-135 | no contract of its own: `_NO_NAME` and every named owner's name; stated by `Grouping.OwnerNamesMembers` |
| Grouping.Bucket | src/main.rs:137-149 | no contract of its own: the members that go to one bucket, in order; stated by `Grouping.KeyInMembers` and `Grouping.FallbackSplit` |
| Grouping.Sections | src/main.rs:156-171 | no contract of its own: each named owner followed by its bucket; stated by `Grouping.SectionsMembers`, `Grouping.SectionsAppend` and `Grouping.SectionsCount` |
| Grouping.RegroupSpec | src/main.rs:109-175 | no contract of its own: the output order; stated by `Grouping.RegroupMembers` and `Grouping.RegroupIsPermutation`, and the method `Grouping.Regroup` is proved to return it |
| Grouping.Regroup | src/main.rs:109-175 | the regrouping yields the order `RegroupSpec` |
| Grouping.SeedStep | src/main.rs:128-135 | entering an owner adds its name, if it has one, with an empty bucket |
| Grouping.AssignStep | src/main.rs:137-149 | assigning a member appends it to its own bucket and to no other |
| Grouping.PartitionMembers | src/main.rs:109-122 | owners are exactly the surviving chunks with a `Class` attribute, members exactly the surviving others |
| Grouping.PartitionIsPermutation | src/main.rs:109-122 | owners and members together hold each survivor exactly once |
| Grouping.OwnerNamesMembers | src/main.rs:128-135 | a name is a key exactly when some named owner has it |
| Grouping.KeyInMembers | src/main.rs:137-149 | a member is selected exactly when its bucket is one of those selected |
| Grouping.SectionsMembers | src/main.rs:156-171 | the owner sections hold exactly the named owners and the members whose bucket is an owner's name |
| Grouping.RegroupMembers | src/main.rs:109-175 | a chunk is output exactly when it has no `NoDoc` and is not an unnamed owner |
| Grouping.KeyInSplit | src/main.rs:137-149 | selecting one more bucket adds exactly its members |
| Grouping.KeyInNothing | src/main.rs:137-149 | selecting no bucket selects nothing |
| Grouping.KeyInAll | src/main.rs:137-149 | selecting every key selects all members, in order |
| Grouping.SectionsCount | src/main.rs:156-171 | with distinct names, the sections hold each named owner and each member of their buckets once |
| Grouping.NamedOnly | src/main.rs:157-161 | every named owner is kept |
| Grouping.RegroupIsPermutation | src/main.rs:109-175 | with every owner named, names distinct and none `_NO_NAME`, the output is a permutation of the chunks without `NoDoc` |
| Grouping.FallbackSplit | src/main.rs:137-149 | when no owner is named `_NO_NAME`, every member is in exactly one of an owner's bucket and the fallback bucket |
| Grouping.AllNamed | src/main.rs:157-161 | when every owner is named, none is skipped |
| Grouping.SectionsAppend | src/main.rs:156-171 | the sections of consecutive owner lists are the concatenated sections |
| Grouping.SharedNameRepeatsMembers | src/main.rs:128-170 | two owners with the same name each get the bucket: its members are written at least twice |
| Grouping.NoNameOwnerRepeatsFallback | src/main.rs:124-175 | an owner named `_NO_NAME` gets the fallback bucket, which is written again at the end |
| Pipeline.Preprocess | src/main.rs:55-57 | no contract of its own: the two text fixes in order; stated by `Pipeline.PreprocessRemovesQuestionMarks`, `Pipeline.QuestionMarkReplaced` and `Pipeline.PreprocessDeletesType` |
| Pipeline.PreprocessRemovesQuestionMarks | src/main.rs:55-57 | no `?` survives the text fixes |
| Pipeline.PreprocessKeepsPlainText | src/main.rs:55-57 | text with neither `?` nor `@` is unchanged |
| Pipeline.QuestionMarkReplaced | src/main.rs:56 | the text before the first `?` is kept, that `?` becomes the nil alternative, and the pass continues on the rest |
| Pipeline.PreprocessDeletesType | src/main.rs:55-57 | for text without `?` whose first `@type` follows `pre`, the fixes keep `pre`, delete that `@type`, and continue the deletion pass on the rest only |
| Pipeline.PreprocessIsSinglePass | src/main.rs:57 | an example of the one-pass deletion: `@ty@typepe` becomes `@type` |
| Pipeline.NoQuestionMark | src/main.rs:56 | text without `?` passes the first fix unchanged |
| Pipeline.Rendered | src/main.rs:164-174 | the rendering of each chunk, by index |
| Pipeline.WriteChunks | src/main.rs:156-175 | the output loops join the chunks' texts in the order given, or stop at the first failure |
| Pipeline.JoinKeepsFailure | src/main.rs:156-175 | a failure of an earlier chunk is the failure of the whole output |
| Pipeline.Join | src/main.rs:156-175 | no contract of its own: the named texts joined in order, stopping at the first failure; stated by `Pipeline.JoinOk`, `Pipeline.JoinKeepsFailure` and `Pipeline.JoinAppend` |
| Pipeline.RenderOrder | src/main.rs:156-175 | no contract of its own: the chunks of an order rendered and joined; stated by `Pipeline.RenderOrderOk` and `Pipeline.RenderOrderAppend` |
| Pipeline.JoinOk | src/main.rs:156-175 | joining succeeds exactly when every chunk named renders |
| Pipeline.RenderOrderOk | src/main.rs:156-175 | the output succeeds exactly when every chunk in the order renders |
| Pipeline.JoinAppend | src/main.rs:156-175 | the output of consecutive orders is the concatenated output |
| Pipeline.RenderOrderAppend | src/main.rs:156-175 | the output of consecutive orders is the concatenated output |
| Pipeline.OutputOf | src/main.rs:109-175 | no contract of its own: the regrouped order, rendered; stated by `Pipeline.Output` and `Pipeline.OutputOk` |
| Pipeline.Output | src/main.rs:109-175 | the file's output is the regrouped order rendered |
| Pipeline.OutputOk | src/main.rs:109-175 | chunks without `Alias` attributes always render: the `NoDoc` ones never reach the output |
| Pipeline.FileOutput | src/main.rs:69-175 | no contract of its own: assembly followed by the output of the chunks; the method `Pipeline.ProcessFile` is proved to return it, and `Pipeline.AssembledFileRenders` states that it never fails at rendering |
| Pipeline.ProcessFile | src/main.rs:69-175 | the work on one parsed file is assembly followed by regrouped rendering, failing at the first abort |
| Pipeline.AssembledFileRenders | src/main.rs:69-175 | a file whose chunks assemble without an abort is always rendered without one |

## Left out

- Directory walking, the `.lua` filter, reading and writing files, creating the output directory and the command line (src/main.rs:21-51, 183, 189-196): I/O. The model works on one file.
- The Lua parser and cursors (src/main.rs:24-25, 62-67): a foreign library. The parsed top-level nodes are a parameter. A node's `utf8_text` is its `text` field, and `child_by_field_name` is `Tree.ChildByFieldName`. A file that fails to parse is skipped by the code and is not modelled.
- `replace_examples` and `replace_fences` (src/main.rs:179, 181): their definitions are not part of this model, so the output ends before them.
- The nodoc pattern: it is not defined in the code, so it is the parameter `isNoDoc`.
- The call to `extract_alias` (src/main.rs:60): its result is discarded and it does not change the text, as `Attr.ExtractAlias` shows.
- Regex match-limit errors, the one-time regex initialisation (src/attr.rs:85, src/main.rs:213) and every UTF-8 decoding step are assumed to succeed. Characters stand for the bytes the regex engine sees. The decoding steps are:
  - the `?` on `utf8_text` at src/main.rs:226, and the `is_ok_and` at src/main.rs:218, which would drop a comment that does not decode;
  - the `from_utf8` captures at src/main.rs:230-269;
  - the five `.expect("no name")` calls on `utf8_text` at src/main.rs:307, 317, 333, 347 and 351;
  - the `unwrap()` calls on `utf8_text` at src/chunk.rs:25, 55, 57 and 63.
  None of these is a `Failures.Panic` value.
- The propagation of an abort out of `main`: a `Panic` ends the file's processing with that failure, and the rest of the run is not modelled.
- Line numbers are unbounded: the `line + 1` of src/main.rs:82 and 90 cannot overflow here.
- Pipeline.Output renders the chunks after computing their order, where the code renders each one as it walks the groups. The order is the same, and the first failure in that order decides the failure in both.
- Chunks.BodyText: its own contract only bounds the length; what it produces is stated by `Chunks.BodyTextVerbatim`.
