/**
 * The ways the tool aborts on a parsed file. Every `panic!`, `expect` and
 * `todo!` of the source that does not come from UTF-8 decoding becomes one
 * of these values inside a `Result`, so that the model says exactly which
 * inputs abort the run. Text is already decoded here, so the `expect` and
 * `unwrap` calls on `utf8_text` (src/main.rs:307, 317, 333, 347, 351 and
 * src/chunk.rs:25, 55, 57, 63) never fail and have no value here.
 */
module Failures {

  datatype Panic =
    | AliasNotExtracted     // an `@alias` line reached the comment parser
    | VarDeclHadNoName      // a variable list without a `name` field
    | NoTable               // an index expression without a `table` field
    | NameKindUnsupported   // a function name that is neither an index expression nor an identifier
    | AliasRenderTodo       // rendering an `Alias` attribute is `todo!()`
    | NoDocHasNoRendering   // the renderer has no arm for the `NoDoc` marker
}
