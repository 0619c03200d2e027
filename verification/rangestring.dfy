/** Reading back the text `SourceRanges.String` produces. The text is parsed from its
    right end, because the file name that opens it may itself contain any character. */
module RangeStrings {
  import opened Wrappers
  import Decimal
  import opened SourceRanges

  /** What the text of a range records: nothing for the null range, otherwise the
      start's file, line, column and offset and the end's line, column and offset. */
  datatype RangeText =
    | NullText
    | RangeText(file: string, startLine: nat, startColumn: nat, startOffset: nat,
                endLine: nat, endColumn: nat, endOffset: nat)

  /** The part of `r` its text records. */
  function Describe(r: SourceRange): RangeText {
    if IsNull(r) then NullText
    else RangeText(r.start.file, r.start.line, r.start.column, r.start.offset,
                   r.end.line, r.end.column, r.end.offset)
  }

  /** `s` without its suffix `suffix`, if it has that suffix. */
  function DropSuffix(s: string, suffix: string): (r: Option<string>)
    ensures r.Some? ==> r.value + suffix == s
  {
    if |suffix| <= |s| && s[|s| - |suffix|..] == suffix then Some(s[..|s| - |suffix|]) else None
  }

  /** Splits `s` into a prefix and its longest all-digit suffix. */
  function SplitDigits(s: string): (r: (string, string))
    ensures r.0 + r.1 == s
    ensures Decimal.AllDigits(r.1)
    ensures r.0 == [] || !Decimal.IsDigit(r.0[|r.0| - 1])
    decreases |s|
  {
    if |s| == 0 || !Decimal.IsDigit(s[|s| - 1]) then (s, [])
    else
      var (p, d) := SplitDigits(s[..|s| - 1]);
      (p, d + [s[|s| - 1]])
  }

  /** Reads a trailing decimal number that follows the separator `sep`, returning what
      precedes the separator and the number. */
  function TakeNumberAfter(s: string, sep: string): Option<(string, nat)> {
    var (p, d) := SplitDigits(s);
    if |d| == 0 then None
    else
      var q :- DropSuffix(p, sep);
      Some((q, Decimal.ToNat(d)))
  }

  /** Parses the text of a range. */
  function ParseRangeString(s: string): Option<RangeText> {
    if s == "null" then Some(NullText)
    else
      var a :- DropSuffix(s, ")");
      var endOffset :- TakeNumberAfter(a, "(");
      var endColumn :- TakeNumberAfter(endOffset.0, ":");
      var endLine :- TakeNumberAfter(endColumn.0, " - :");
      var b :- DropSuffix(endLine.0, ")");
      var startOffset :- TakeNumberAfter(b, "(");
      var startColumn :- TakeNumberAfter(startOffset.0, ":");
      var startLine :- TakeNumberAfter(startColumn.0, ":");
      Some(RangeText(startLine.0, startLine.1, startColumn.1, startOffset.1,
                     endLine.1, endColumn.1, endOffset.1))
  }

  lemma DropSuffixAppend(p: string, suffix: string)
    ensures DropSuffix(p + suffix, suffix) == Some(p)
  {
  }

  /** A digit string after a non-digit is split off whole. */
  lemma {:induction false} SplitDigitsAppend(p: string, d: string)
    requires Decimal.AllDigits(d)
    requires p == [] || !Decimal.IsDigit(p[|p| - 1])
    ensures SplitDigits(p + d) == (p, d)
    decreases |d|
  {
    var s := p + d;
    if |d| == 0 {
      assert s == p;
    } else {
      var d' := d[..|d| - 1];
      var c := d[|d| - 1];
      assert d == d' + [c];
      assert s == (p + d') + [c];
      assert s[..|s| - 1] == p + d';
      assert Decimal.IsDigit(s[|s| - 1]);
      SplitDigitsAppend(p, d');
    }
  }

  lemma TakeNumberAfterAppend(q: string, sep: string, n: nat)
    requires |sep| > 0 && !Decimal.IsDigit(sep[|sep| - 1])
    ensures TakeNumberAfter(q + sep + Decimal.FromNat(n), sep) == Some((q, n))
  {
    var p := q + sep;
    assert p[|p| - 1] == sep[|sep| - 1];
    SplitDigitsAppend(p, Decimal.FromNat(n));
    DropSuffixAppend(q, sep);
    Decimal.ToNatFromNat(n);
  }

  /** The text of any range parses back to exactly what it records about the range. */
  lemma StringRoundTrip(r: SourceRange)
    ensures ParseRangeString(String(r)) == Some(Describe(r))
  {
    if !IsNull(r) {
      var s := String(r);
      assert s != "null";
      var p1 := r.start.file + ":" + Decimal.FromNat(r.start.line);
      var p2 := p1 + ":" + Decimal.FromNat(r.start.column);
      var p3 := p2 + "(" + Decimal.FromNat(r.start.offset);
      var p4 := p3 + ")" + " - :" + Decimal.FromNat(r.end.line);
      var p5 := p4 + ":" + Decimal.FromNat(r.end.column);
      var p6 := p5 + "(" + Decimal.FromNat(r.end.offset);
      assert s == p6 + ")";
      assert DropSuffix(s, ")") == Some(p6) by {
        DropSuffixAppend(p6, ")");
      }
      assert TakeNumberAfter(p6, "(") == Some((p5, r.end.offset)) by {
        TakeNumberAfterAppend(p5, "(", r.end.offset);
      }
      assert TakeNumberAfter(p5, ":") == Some((p4, r.end.column)) by {
        TakeNumberAfterAppend(p4, ":", r.end.column);
      }
      assert TakeNumberAfter(p4, " - :") == Some((p3 + ")", r.end.line)) by {
        TakeNumberAfterAppend(p3 + ")", " - :", r.end.line);
      }
      assert DropSuffix(p3 + ")", ")") == Some(p3) by {
        DropSuffixAppend(p3, ")");
      }
      assert TakeNumberAfter(p3, "(") == Some((p2, r.start.offset)) by {
        TakeNumberAfterAppend(p2, "(", r.start.offset);
      }
      assert TakeNumberAfter(p2, ":") == Some((p1, r.start.column)) by {
        TakeNumberAfterAppend(p1, ":", r.start.column);
      }
      assert TakeNumberAfter(p1, ":") == Some((r.start.file, r.start.line)) by {
        TakeNumberAfterAppend(r.start.file, ":", r.start.line);
      }
    }
  }

  /** Two ranges print alike exactly when they record the same file, lines, columns and
      offsets; in particular only the null range prints as "null". */
  lemma StringInjective(r1: SourceRange, r2: SourceRange)
    ensures String(r1) == String(r2) <==> Describe(r1) == Describe(r2)
  {
    StringRoundTrip(r1);
    StringRoundTrip(r2);
  }
}
