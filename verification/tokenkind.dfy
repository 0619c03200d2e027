/** The closed enumeration of lexical token kinds and its printable names. */
module TokenKinds {
  import opened Wrappers
  import Decimal

  /** The unsigned 32-bit integer a raw token kind is carried in. */
  newtype uint32 = x: int | 0 <= x < 0x1_0000_0000

  datatype TokenKind = Punctuation | Keyword | Identifier | Literal | Comment

  /** The value libclang's CXTokenKind enumeration gives each kind. */
  function Encode(k: TokenKind): uint32 {
    match k
    case Punctuation => 0
    case Keyword => 1
    case Identifier => 2
    case Literal => 3
    case Comment => 4
  }

  /** The kind a raw value stands for, if any. */
  function Decode(raw: uint32): (k: Option<TokenKind>)
    ensures k.Some? <==> raw < 5
    ensures k.Some? ==> Encode(k.value) == raw
  {
    if raw == 0 then Some(Punctuation)
    else if raw == 1 then Some(Keyword)
    else if raw == 2 then Some(Identifier)
    else if raw == 3 then Some(Literal)
    else if raw == 4 then Some(Comment)
    else None
  }

  function Name(k: TokenKind): string {
    match k
    case Punctuation => "Punctuation"
    case Keyword => "Keyword"
    case Identifier => "Identifier"
    case Literal => "Literal"
    case Comment => "Comment"
  }

  /** The message the binding panics with on a value outside the enumeration. */
  function InvalidKindMessage(tk: uint32): string {
    "clang: invalid TokenKind value (" + Decimal.FromNat(tk as nat) + ")"
  }

  /** The name of a raw kind value. A value that is not one of the five kinds is fatal:
      the result is then the failure the binding panics with. */
  function KindString(tk: uint32): (r: Result<string, string>)
    ensures r.Success? <==> tk < 5
    ensures forall k :: Encode(k) == tk ==> r == Success(Name(k))
    ensures r.Failure? ==> r.error == InvalidKindMessage(tk)
  {
    match Decode(tk)
    case Some(k) => Success(Name(k))
    case None => Failure(InvalidKindMessage(tk))
  }

  /** Encoding and decoding are inverse on the five kinds. */
  lemma DecodeEncode(k: TokenKind)
    ensures Decode(Encode(k)) == Some(k)
  {
  }

  /** No two kinds share a name, so the name printed identifies the raw value. */
  lemma KindStringInjective(a: uint32, b: uint32)
    requires KindString(a).Success? && KindString(a) == KindString(b)
    ensures a == b
  {
  }

  /** Distinct invalid values panic with distinct messages. */
  lemma InvalidKindMessageInjective(a: uint32, b: uint32)
    requires InvalidKindMessage(a) == InvalidKindMessage(b)
    ensures a == b
  {
    var pre := "clang: invalid TokenKind value (";
    var da := Decimal.FromNat(a as nat);
    var db := Decimal.FromNat(b as nat);
    assert |da| == |db|;
    assert da == (pre + da + ")")[|pre|..|pre| + |da|];
    assert db == (pre + db + ")")[|pre|..|pre| + |db|];
    Decimal.FromNatInjective(a as nat, b as nat);
  }
}
