/** The parts of libclang the token layer calls, as opaque handles and as an `Engine`
    record of functions. The record's functions are left unconstrained, so every
    property proved about a caller holds for whatever libclang answers. */
module Libclang {
  import opened SourceRanges

  /** Opaque handle to a parsed translation unit (CXTranslationUnit). */
  datatype TranslationUnit = TranslationUnit(handle: nat)

  /** One raw lexical token as libclang hands it out (CXToken). */
  datatype RawToken = RawToken(data: nat)

  /** One raw syntax-tree node reference (CXCursor). */
  datatype RawCursor = RawCursor(data: nat)

  /** What `clang_tokenize` hands back: a nil array, or an array of the reported number
      of tokens. */
  datatype TokenArray = NilArray | TokenArray(tokens: seq<RawToken>)

  datatype Engine = Engine(
    /** clang_tokenize */
    tokenize: (TranslationUnit, SourceRange) -> TokenArray,
    /** clang_getTokenExtent */
    tokenExtent: (TranslationUnit, RawToken) -> SourceRange,
    /** clang_annotateTokens: the cursor it writes at position i for the given tokens */
    annotate: (TranslationUnit, seq<RawToken>, nat) -> RawCursor,
    /** clang_getCursorExtent */
    cursorExtent: RawCursor -> SourceRange,
    /** clang_Cursor_getTranslationUnit */
    cursorUnit: RawCursor -> TranslationUnit)

  /** A call into libclang that reads or releases a token array, identified by the
      translation unit, the array's first token and its length. */
  datatype TokenCall =
    | ExtentCall(tu: TranslationUnit, token: RawToken)
    | AnnotateCall(tu: TranslationUnit, first: RawToken, count: nat)
    | DisposeCall(tu: TranslationUnit, first: RawToken, count: nat)
}
