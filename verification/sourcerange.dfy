/** Source locations and half-open source ranges, with the cross-file-safe
    intersection that containment is defined by. */
module SourceRanges {
  import Decimal

  /** A point in a source file as `clang_getFileLocation` reports it: the file's name,
      1-based line and column, and the byte offset into the file. */
  datatype Location = Location(file: string, line: nat, column: nat, offset: nat)

  /** The location with no file, which both ends of the null range carry. */
  const NullLocation: Location := Location("", 0, 0, 0)

  /** A half-open range: `start` is included, `end` is not. */
  datatype SourceRange = SourceRange(start: Location, end: Location)

  function Max(a: nat, b: nat): nat {
    if a < b then b else a
  }

  function Min(a: nat, b: nat): nat {
    if a > b then b else a
  }

  /** Byte offset `p` of file `f` lies in `r`. A range only denotes positions of the
      file its start is in. */
  predicate Covers(r: SourceRange, f: string, p: nat) {
    r.start.file == f && r.start.offset <= p < r.end.offset
  }

  /** Both ends of `r` lie in one file. */
  predicate SingleFile(r: SourceRange) {
    r.start.file == r.end.file
  }

  /** The sentinel range: it denotes no position of any file. */
  function NewNullRange(): (r: SourceRange)
    ensures IsNull(r)
    ensures forall f, p :: !Covers(r, f, p)
  {
    SourceRange(NullLocation, NullLocation)
  }

  /** Builds a range from its two ends, without checking their order. */
  function NewRange(beg: Location, end: Location): (r: SourceRange)
    ensures Start(r) == beg && End(r) == end
  {
    SourceRange(beg, end)
  }

  /** The first location of `r`, the one `r` includes. */
  function Start(r: SourceRange): (l: Location)
    ensures Covers(r, l.file, l.offset) <==> r.start.offset < r.end.offset
    ensures IsNull(r) ==> l == NullLocation
  {
    r.start
  }

  /** The location just past `r`, the one `r` excludes. */
  function End(r: SourceRange): (l: Location)
    ensures !Covers(r, l.file, l.offset)
    ensures IsNull(r) ==> l == NullLocation
  {
    r.end
  }

  /** Two ranges are equal when they agree at both ends. */
  function IsEqual(r1: SourceRange, r2: SourceRange): (b: bool)
    ensures b <==> Start(r1) == Start(r2) && End(r1) == End(r2)
  {
    r1 == r2
  }

  /** A null range is one whose two ends are the null location; it covers nothing. */
  function IsNull(r: SourceRange): (b: bool)
    ensures b <==> r == SourceRange(NullLocation, NullLocation)
    ensures b ==> r.end.offset <= r.start.offset
  {
    r.start == NullLocation && r.end == NullLocation
  }

  /** The overlap of `s` (the receiver) and `i`. The start files and the end files are
      compared separately; the later start and the earlier end are kept, a tie keeping
      the receiver's location; unless the kept start lies before the kept end the
      result is the null range. */
  function Intersect(s: SourceRange, i: SourceRange): (r: SourceRange)
    ensures s.start.file != i.start.file ==> IsNull(r)
    ensures s.end.file != i.end.file ==> IsNull(r)
    ensures !IsNull(r) <==>
              && s.start.file == i.start.file
              && s.end.file == i.end.file
              && Max(s.start.offset, i.start.offset) < Min(s.end.offset, i.end.offset)
    ensures !IsNull(r) ==>
              && (r.start == s.start || r.start == i.start)
              && r.start.offset == Max(s.start.offset, i.start.offset)
              && (i.start.offset <= s.start.offset ==> r.start == s.start)
    ensures !IsNull(r) ==>
              && (r.end == s.end || r.end == i.end)
              && r.end.offset == Min(s.end.offset, i.end.offset)
              && (s.end.offset <= i.end.offset ==> r.end == s.end)
    ensures !IsNull(r) ==> r.start.offset < r.end.offset
  {
    if s.start.file == i.start.file then
      var sl := if s.start.offset < i.start.offset then i.start else s.start;
      if s.end.file == i.end.file then
        var el := if s.end.offset > i.end.offset then i.end else s.end;
        if sl.offset < el.offset then NewRange(sl, el) else NewNullRange()
      else
        NewNullRange()
    else
      NewNullRange()
  }

  /** `s` lies inside `e` when clipping it to `e` leaves it unchanged: the null range lies
      inside every range, and any other range exactly when it is non-empty, its start and
      end files match those of `e`, and its offsets lie within those of `e`. */
  function IsInside(s: SourceRange, e: SourceRange): (b: bool)
    ensures b <==>
              || IsNull(s)
              || (&& s.start.file == e.start.file
                  && s.end.file == e.end.file
                  && e.start.offset <= s.start.offset < s.end.offset <= e.end.offset)
  {
    IsEqual(Intersect(s, e), s)
  }

  /** `"null"` for the null range; otherwise the start's file, line, column and offset,
      then the end's line, column and offset (its file name is not repeated). */
  function String(r: SourceRange): (s: string)
    ensures IsNull(r) <==> s == "null"
    ensures !IsNull(r) ==> |s| > 0 && s[|s| - 1] == ')'
  {
    if IsNull(r) then "null"
    else
      r.start.file + ":" + Decimal.FromNat(r.start.line) + ":" + Decimal.FromNat(r.start.column)
      + "(" + Decimal.FromNat(r.start.offset) + ")"
      + " - :" + Decimal.FromNat(r.end.line) + ":" + Decimal.FromNat(r.end.column)
      + "(" + Decimal.FromNat(r.end.offset) + ")"
  }

  /** Intersecting with the null range, on either side, gives the null range. */
  lemma IntersectNull(r: SourceRange)
    ensures IsNull(Intersect(r, NewNullRange()))
    ensures IsNull(Intersect(NewNullRange(), r))
  {
  }

  /** For single-file ranges the intersection denotes exactly the positions both
      ranges denote. */
  lemma IntersectCovers(s: SourceRange, i: SourceRange, f: string, p: nat)
    requires SingleFile(s) && SingleFile(i)
    ensures Covers(Intersect(s, i), f, p) <==> Covers(s, f, p) && Covers(i, f, p)
  {
  }

  /** Same-file ranges where `s` ends no later than `e` starts do not overlap, so a
      non-null `s` is not inside `e`. */
  lemma DisjointNotInside(s: SourceRange, e: SourceRange)
    requires s.start.file == e.start.file && s.end.file == e.end.file
    requires s.end.offset <= e.start.offset
    ensures IsNull(Intersect(s, e))
    ensures !IsNull(s) ==> !IsInside(s, e)
  {
  }

  /** A non-empty range is inside itself. */
  lemma IsInsideReflexive(s: SourceRange)
    requires s.start.offset < s.end.offset
    ensures IsInside(s, s)
  {
  }

  /** Containment is transitive. */
  lemma IsInsideTransitive(a: SourceRange, b: SourceRange, c: SourceRange)
    requires IsInside(a, b) && IsInside(b, c)
    ensures IsInside(a, c)
  {
  }

  /** For non-empty single-file ranges, `IsInside` is containment of the denoted
      positions. */
  lemma IsInsideCovers(s: SourceRange, e: SourceRange)
    requires SingleFile(s) && SingleFile(e)
    requires s.start.offset < s.end.offset
    ensures IsInside(s, e) <==> forall p :: Covers(s, s.start.file, p) ==> Covers(e, s.start.file, p)
  {
    if forall p :: Covers(s, s.start.file, p) ==> Covers(e, s.start.file, p) {
      assert Covers(s, s.start.file, s.start.offset);
      assert Covers(s, s.start.file, s.end.offset - 1);
    }
  }
}
