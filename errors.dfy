/** What can go wrong while one node of the tree is resolved. */
module Errors {

  datatype Error =
    /** A TypeError: a pattern found no match and `null[0]` was read, or a
        dot-separated component the code indexes into is missing. */
    | MalformedVersion(text: string)
    /** The ReferenceError of reading the block-scoped `key` before its declaration. */
    | KeyReadBeforeDeclaration
    /** The TypeError of reading `.dependencies` of an undefined selection. */
    | NoVersionSelected
    /** The registry request for this package failed. */
    | FetchFailed(name: string)
}
