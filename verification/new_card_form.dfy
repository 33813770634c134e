/** The new-card form: a message field and a like-count field, a submit that
    always emits a payload with the like count coerced to an integer, and a
    reset after emitting. */
module NewCardForm {
  import opened Wrappers
  import opened JsText

  /** The `name` attributes of the form's two inputs. */
  datatype FieldName = Message | LikesCount

  /** The form's input state; both fields hold the raw typed text. */
  datatype Fields = Fields(message: string, likesCount: string) {
    function Get(name: FieldName): string {
      match name
      case Message => message
      case LikesCount => likesCount
    }
  }

  /** The payload handed to the parent's `onCardAdd`. */
  datatype NewCard = NewCard(message: string, likesCount: int)

  /** The fields after a submit and the payload it emitted. */
  datatype Submitted = Submitted(fields: Fields, emitted: NewCard)

  /** Both fields empty, as at mount and after every submit. */
  const Cleared := Fields("", "")

  /** `handleChange`: the input named by the event takes the typed value; the
      other field stays. */
  function HandleChange(f: Fields, name: FieldName, value: string): (r: Fields)
    ensures r.Get(name) == value
    ensures forall other: FieldName :: other != name ==> r.Get(other) == f.Get(other)
  {
    match name
    case Message => f.(message := value)
    case LikesCount => f.(likesCount := value)
  }

  /** JavaScript's `s || ''` on a string: the empty string is the only falsy
      string, and it is replaced by itself. */
  function OrEmpty(s: string): (r: string)
    ensures r == s
  {
    if |s| == 0 then "" else s
  }

  /** JavaScript's `n || 0` on the result of `parseInt`: `NaN` and zero are
      the falsy numbers, and both become 0. */
  function OrZero(n: Option<int>): (r: int)
    ensures r == n.GetOr(0)
    ensures r == 0 <==> n.None? || n.value == 0
  {
    match n
    case None => 0
    case Some(v) => if v == 0 then 0 else v
  }

  /** `parseInt(field) || 0`. */
  function LikesCountOf(field: string): (r: int)
    ensures ParseInt(field).None? ==> r == 0
    ensures ParseInt(field).Some? ==> r == ParseInt(field).value
  {
    OrZero(ParseInt(field))
  }

  /** `handleSubmit`: always emits exactly one payload, with the message as
      typed and the like count read by `parseInt` (0 when there is no number),
      then clears both fields. There is no required-field check. */
  function HandleSubmit(f: Fields): (r: Submitted)
    ensures r.fields == Cleared
    ensures r.emitted.message == f.message
    ensures ParseInt(f.likesCount).None? ==> r.emitted.likesCount == 0
    ensures ParseInt(f.likesCount).Some? ==> r.emitted.likesCount == ParseInt(f.likesCount).value
  {
    Submitted(Cleared, NewCard(OrEmpty(f.message), LikesCountOf(f.likesCount)))
  }

  /** Typing an integer into the like-count field submits that integer,
      negative values included (nothing clamps them). */
  lemma SubmitsTypedNumber(message: string, n: int)
    ensures HandleSubmit(Fields(message,
                                if n < 0 then "-" + DecimalString(-n) else DecimalString(n)))
              .emitted == NewCard(message, n)
  {
    ParseIntRoundTrip(n);
  }

  /** A like-count field with no digits after the whitespace and one optional
      sign submits 0. */
  lemma SubmitsZeroWithoutDigits(message: string, ws: string, sign: string, rest: string)
    requires AllWhitespace(ws) && IsSign(sign)
    requires |rest| > 0 ==> !IsDecimalDigit(rest[0])
    requires |rest| > 0 && |sign| == 0 ==>
               !IsWhitespace(rest[0]) && rest[0] != '+' && rest[0] != '-'
    ensures HandleSubmit(Fields(message, ws + sign + rest)).emitted == NewCard(message, 0)
  {
    ParseIntNaN(ws, sign, rest);
  }

  /** A like-count field that starts with a number followed by other text
      submits the number: `'12abc'` gives 12. */
  lemma SubmitsLeadingNumber(message: string, ws: string, sign: string,
                             digits: string, rest: string)
    requires AllWhitespace(ws) && IsSign(sign)
    requires |digits| > 0 && AllRadixDigits(digits, Decimal)
    requires |rest| > 0 ==> !IsDecimalDigit(rest[0])
    requires |rest| > 0 && |digits| == 1 && digits[0] == '0' ==> rest[0] != 'x' && rest[0] != 'X'
    ensures HandleSubmit(Fields(message, ws + sign + (digits + rest))).emitted.likesCount
            == if IsMinus(sign) then 0 - ValueOf(digits, Decimal) else ValueOf(digits, Decimal)
  {
    var m := ParseIntDecimal(ws, sign, digits, rest);
  }

  /** Fields without a number submit 0. */
  lemma LikesCountWithoutNumber()
    ensures LikesCountOf("") == 0
    ensures LikesCountOf("abc") == 0
    ensures LikesCountOf("0x") == 0
  {
  }

  /** Only one sign is read, and no whitespace after it: `'- 5'` and
      `'+-5'` submit 0. */
  lemma LikesCountAfterSign()
    ensures LikesCountOf("- 5") == 0
    ensures LikesCountOf("+-5") == 0
  {
  }

  /** Signs and leading whitespace are read; negative counts are kept. */
  lemma LikesCountSigned()
    ensures LikesCountOf("-5") == -5
    ensures LikesCountOf(" 7") == 7
  {
  }

  /** Reading stops at the first character that is not a digit. */
  lemma LikesCountLeadingNumber()
    ensures LikesCountOf("12abc") == 12
  {
    assert "12"[..1] == "1";
    var twelve := ParseIntDecimal("", "", "12", "abc");
    assert twelve == 12;
    assert "" + "" + ("12" + "abc") == "12abc";
    assert ParseInt("12abc") == Some(12);
  }

  /** A `0x` prefix reads the rest as hexadecimal. */
  lemma LikesCountHexadecimal()
    ensures LikesCountOf("0x1A") == 26
  {
    var hex := "0x1A";
    assert hex[LeadingWhitespace(hex)..] == hex;
    assert hex[2..] == "1A";
    assert DigitRun("1A", Hexadecimal) == 2;
    assert "1A"[..2] == "1A";
    assert "1A"[..1] == "1";
    assert ValueOf("1A", Hexadecimal) == 26;
  }
}
