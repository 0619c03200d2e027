# Source ranges and token streams of a Go libclang binding

This project models the two pieces of the `clang` Go package (a cgo binding to
libclang) that hold logic of their own:

- **Source-range arithmetic** (`sourcerange.go`). A location is a file name with a
  line, a column and a byte offset; a range is a half-open pair of locations; the null
  range is the pair of null locations (empty file name, everything zero). `intersect`
  is a cross-file-safe interval intersection: start files and end files are compared
  separately, the later start and the earlier end are kept (ties keep the receiver's
  location), and the result is null unless the kept start lies before the kept end.
  `IsInside` is "intersection equals self" and `String` has a fixed layout.
- **Token-stream bookkeeping** (`token.go`). The closed `TokenKind` enumeration whose
  unknown values are fatal, `Tokenize`, the bounds-checked `token(idx)`, `Annotate`,
  `Dispose`, `Count`, and `Cursor.Tokens`, which filters the tokenized extent of a
  cursor to the tokens lying inside that extent and releases the intermediate array.

libclang itself is an `Engine` record of functions (`Libclang` module) that is passed
in and never constrained, so every property holds whatever libclang answers. Calls that
read or release a libclang token array are returned as a trace of `TokenCall`s, which
is how "no call on an empty stream", "every token is read before release" and
"released exactly once" are stated.

Modules: `Wrappers` (Option, Result), `Decimal` (decimal numerals), `SourceRanges`,
`RangeStrings` (a parser that reads `String`'s output back), `TokenKinds`, `Libclang`,
`TokenStreams`.

Three behaviours of the code a reader may not expect:

- `Dispose` on an empty stream is not a no-op in the code: it indexes the first token.
  `TokenStreams.Dispose` therefore requires a non-empty stream, and `Cursor.Tokens`
  skips it for an empty one, as the code does.
- `token(idx)` guards only `idx >= Count`. A negative index is not handled, so the
  model takes `idx` as a natural number.
- A consequence of "intersection equals self": the null range is inside every range
  (`SourceRanges.IsInside`). A non-null range that is empty or inverted is inside none.

## Model

| member | source | states |
|---|---|---|
| SourceRanges.NewNullRange | sourcerange.go:18-21 | the null range is null and denotes no position of any file |
| SourceRanges.NewRange | sourcerange.go:23-28 | `Start` and `End` of the built range give back the two locations, in order, without any check on them |
| SourceRanges.Start | sourcerange.go:48-55 | the first location of a range, which the range itself includes exactly when it is non-empty; for the null range it is the null location |
| SourceRanges.End | sourcerange.go:57-64 | the location just past a range, which the range never includes; for the null range it is the null location |
| SourceRanges.IsEqual | sourcerange.go:30-37 | two ranges are equal exactly when their starts agree and their ends agree |
| SourceRanges.IsNull | sourcerange.go:39-46 | a range is null exactly when both ends are the null location; a null range is empty, its end offset not exceeding its start offset, so it covers no position |
| SourceRanges.Intersect | sourcerange.go:66-100 | different start files or different end files give null; the result is non-null exactly when both file pairs agree and the larger start offset is below the smaller end offset; its start has the larger start offset and is one of the two starts, the receiver's on a tie; its end has the smaller end offset and is one of the two ends, the receiver's on a tie; a non-null result has start offset below end offset |
| SourceRanges.IsInside | sourcerange.go:102-105 | `s` is inside `e` exactly when `s` is null, or its start and end files match those of `e` and `e.start <= s.start < s.end <= e.end` by offset |
| SourceRanges.String | sourcerange.go:107-116 | the text is `"null"` exactly for the null range; any other text ends with `)` |
| SourceRanges.IntersectNull | sourcerange.go:94-99 | intersecting with the null range on either side gives null |
| SourceRanges.IntersectCovers | sourcerange.go:66-100 | for ranges whose ends share a file, a position lies in the intersection exactly when it lies in both ranges |
| SourceRanges.DisjointNotInside | sourcerange.go:94-105 | same-file ranges where `s` ends no later than `e` starts intersect to null, and a non-null `s` is then not inside `e` |
| SourceRanges.IsInsideReflexive | sourcerange.go:103-105 | a range with start offset below end offset is inside itself |
| SourceRanges.IsInsideTransitive | sourcerange.go:103-105 | inside `b` and `b` inside `c` gives inside `c` |
| SourceRanges.IsInsideCovers | sourcerange.go:103-105 | for non-empty single-file ranges, `IsInside` holds exactly when every position of `s` is a position of `e` |
| RangeStrings.StringRoundTrip | sourcerange.go:108-116 | parsing the text of any range gives back its start file, start line, column and offset and end line, column and offset (or the null marker) |
| RangeStrings.StringInjective | sourcerange.go:108-116 | two ranges print alike exactly when they agree on all the values the text records |
| Decimal.FromNat | sourcerange.go:113-115 | numbers print as a non-empty digit string with no leading zero |
| Decimal.ToNatFromNat | sourcerange.go:113-115 | reading a printed number gives the number back |
| Decimal.FromNatInjective | sourcerange.go:113-115 | different numbers print differently |
| TokenKinds.Decode | token.go:16-41 | exactly the raw values 0 to 4 are kinds, and each decodes to the kind that encodes to it |
| TokenKinds.DecodeEncode | token.go:16-41 | every kind's value decodes back to that kind |
| TokenKinds.KindString | token.go:43-58 | each of the five kinds prints as its name; every other value fails with the message `clang: invalid TokenKind value (<n>)` |
| TokenKinds.KindStringInjective | token.go:43-54 | no two raw values print the same name |
| TokenKinds.InvalidKindMessageInjective | token.go:55-56 | distinct invalid values fail with distinct messages |
| TokenStreams.Count | token.go:209-211 | the count is the length of the stream and is zero exactly for the empty stream |
| TokenStreams.Tokenize | token.go:117-128 | the stream belongs to the given translation unit; a nil array gives an empty stream; otherwise the stream is exactly the reported tokens |
| TokenStreams.TokenAt | token.go:213-218 | absent exactly when the index is at or past `Count`; otherwise the token at that position, with the stream's translation unit |
| TokenStreams.Dispose | token.go:205-207 | a non-empty stream not yet released is released by exactly one appended call, the earlier calls unchanged |
| TokenStreams.Annotate | token.go:188-200 | exactly `Count` cursors, cursor `i` being libclang's annotation for token `i`; an empty stream makes no libclang call, a non-empty one exactly one annotation call |
| TokenStreams.InsideOf | token.go:141-146 | the filtered tokens are no more than the input, and every one of them has its extent inside the given extent |
| TokenStreams.InsideOfMembers | token.go:141-146 | a token is kept exactly when it is in the input and its extent is inside the given extent |
| TokenStreams.InsideOfAppend | token.go:141-146 | filtering a concatenation concatenates the filtered parts, so the kept tokens keep their order |
| TokenStreams.InsideOfPrefix | token.go:141-146 | one more input token extends the filtered tokens by that token exactly when it lies inside the extent |
| TokenStreams.KeptTokensInsideOf | token.go:141-146 | filtering the first `n` tokens of a stream one index at a time gives the same tokens, in the same order, as filtering that prefix as a sequence |
| TokenStreams.ReadInside | token.go:141-146 | the loop, going through the stream by index with `token(idx)`, keeps exactly the tokens that pass the containment test, in stream order, and reads the extent of every token once, in stream order |
| TokenStreams.CursorTokens | token.go:134-149 | the result is exactly the tokens of the cursor's tokenized extent whose extent is inside the cursor's extent, in stream order; an empty stream is returned empty without release; otherwise every token's extent is read first and the array is then released exactly once, as the last call |

## Left out

- The visitor bridge (`find.go`): it is cgo plumbing that casts an opaque pointer back
  to its context record; its only logic maps a boolean to continue/break.
- libclang itself: tokenizing, token extents, annotation, cursor extents and
  translation units are unconstrained functions of the `Engine` record, and range
  equality is structural equality of the two locations. libclang's own refusal, inside
  `clang_getRange`, to pair locations from different translation units is not modelled.
- `Token.Kind`, `Token.Spelling`, `Token.Location`, `Token.Extent` and
  `Cursor.Tokenize`: one-line forwarders to libclang (`Token.Extent` and
  `Cursor.Tokenize` appear as the helpers `TokenExtent` and `CursorTokenize`), and the
  C-string release behind `Spelling`.
- The unsafe cast of the C token pointer to a Go slice in `Tokenize`: the array is a
  sequence whose length is the reported count.
- Go's distinction between a nil slice and an empty one (`Cursor.Tokens` returns nil
  for an empty stream): both are the empty sequence.
- Negative indices to `token(idx)`, which the code does not guard: the index is a
  natural number.
- Lines, columns and offsets are unsigned 32-bit values in libclang; they are natural
  numbers here, which loses nothing because nothing adds to them.
- What libclang produces for concrete source text (for instance the five tokens of
  `int x = 1;` and their kinds): that is the engine's behaviour, not this layer's.
