/** Counters that cross JavaScript's integer boundary (protocol/src/json_u64.rs): numbers while exact, text above. */
module JsonU64 {
  import opened Basics

  const MAX_SAFE_INTEGER: int := 9_007_199_254_740_991
  const U64_MAX: int := 0xffff_ffff_ffff_ffff

  type u64 = n: int | 0 <= n <= U64_MAX
  type i64 = n: int | -0x8000_0000_0000_0000 <= n < 0x8000_0000_0000_0000

  /** What the JSON parser hands to a visitor; `Other` is a fraction, a boolean, an array or an object. */
  datatype Json = Null | Natural(n: u64) | Signed(i: i64) | Text(s: string) | Other

  datatype DecodeError = NotCanonical | ExceedsU64 | NotExact | IsNegative | WrongType

  datatype Result<T> = Ok(value: T) | Err(error: DecodeError)

  // ---- Decimal text ----

  predicate IsDigit(c: char) {
    '0' <= c <= '9'
  }

  function Digit(d: nat): (c: char)
    requires d < 10
    ensures IsDigit(c) && (c as int) - ('0' as int) == d
  {
    ('0' as int + d) as char
  }

  /** `u64::to_string`. */
  function Decimal(n: nat): string {
    if n < 10 then [Digit(n)] else Decimal(n / 10) + [Digit(n % 10)]
  }

  function ValueOf(s: string): nat
    requires forall i :: 0 <= i < |s| ==> IsDigit(s[i])
  {
    if s == "" then 0
    else
      assert IsDigit(s[|s| - 1]);
      10 * ValueOf(s[..|s| - 1]) + (s[|s| - 1] as int - '0' as int)
  }

  predicate Canonical(s: string) {
    s != "" && (forall i :: 0 <= i < |s| ==> IsDigit(s[i])) && !(|s| > 1 && s[0] == '0')
  }

  function ParseDecimal(s: string): Result<u64> {
    if !Canonical(s) then Err(NotCanonical)
    else if ValueOf(s) > U64_MAX then Err(ExceedsU64)
    else Ok(ValueOf(s))
  }

  lemma {:induction false} DecimalReads(n: nat)
    ensures Canonical(Decimal(n)) && ValueOf(Decimal(n)) == n
    ensures Decimal(n)[0] == '0' ==> n == 0
  {
    if n < 10 {
      assert ValueOf(Decimal(n)[..0]) == 0;
    } else {
      var front := Decimal(n / 10);
      DecimalReads(n / 10);
      assert Decimal(n)[..|Decimal(n)| - 1] == front;
    }
  }

  lemma PrintsOneMore(front: nat, last: nat)
    requires front > 0 && last < 10
    ensures Decimal(10 * front + last) == Decimal(front) + [Digit(last)]
  {
    assert (10 * front + last) / 10 == front && (10 * front + last) % 10 == last;
  }

  lemma {:induction false} CanonicalPrints(s: string)
    requires Canonical(s)
    ensures Decimal(ValueOf(s)) == s
    ensures s[0] != '0' ==> ValueOf(s) > 0
  {
    var n := |s| - 1;
    var last := s[n] as int - '0' as int;
    assert Digit(last) == s[n];
    if n == 0 {
      assert ValueOf(s[..0]) == 0;
    } else {
      CanonicalPrints(s[..n]);
      PrintsOneMore(ValueOf(s[..n]), last);
      assert s == s[..n] + [s[n]];
    }
  }

  /** Parsing succeeds exactly on what printing a u64 gives, and printing the result gives the text back. */
  lemma ParseIsPrintBackwards(s: string, n: u64)
    ensures ParseDecimal(s) == Ok(n) <==> s == Decimal(n)
  {
    DecimalReads(n);
    if Canonical(s) {
      CanonicalPrints(s);
    }
  }

  /** Which of the two errors a text that is refused gets. */
  lemma ParseErrors(s: string)
    ensures ParseDecimal(s) == Err(NotCanonical) <==> forall n: nat :: s != Decimal(n)
    ensures ParseDecimal(s) == Err(ExceedsU64) <==> exists n: nat :: n > U64_MAX && s == Decimal(n)
  {
    forall n: nat
      ensures Canonical(Decimal(n)) && ValueOf(Decimal(n)) == n
    {
      DecimalReads(n);
    }
    if Canonical(s) {
      CanonicalPrints(s);
    }
  }

  // ---- Encoding and decoding ----

  function Serialize(v: u64): Json {
    if v <= MAX_SAFE_INTEGER then Natural(v) else Text(Decimal(v))
  }

  function VisitU64(v: u64): Result<u64> {
    if v <= MAX_SAFE_INTEGER then Ok(v) else Err(NotExact)
  }

  function Deserialize(j: Json): Result<u64> {
    match j
    case Natural(n) => VisitU64(n)
    case Signed(i) => if i < 0 then Err(IsNegative) else VisitU64(i)
    case Text(s) => ParseDecimal(s)
    case _ => Err(WrongType)
  }

  /** Decoding the encoding gives every value back. */
  lemma RoundTrip(v: u64)
    ensures Deserialize(Serialize(v)) == Ok(v)
  {
    ParseIsPrintBackwards(Decimal(v), v);
  }

  /** Values a JavaScript number cannot hold exactly are never written as numbers, nor accepted as such. */
  lemma NumbersAreExact(v: u64, j: Json)
    ensures v > MAX_SAFE_INTEGER ==> Serialize(v) == Text(Decimal(v)) && ParseDecimal(Decimal(v)) == Ok(v)
    ensures !j.Text? && Deserialize(j).Ok? ==> Deserialize(j).value <= MAX_SAFE_INTEGER
  {
    ParseIsPrintBackwards(Decimal(v), v);
  }

  /** The complete list of what decodes to a value. */
  lemma DecodesExactly(j: Json, v: u64)
    ensures Deserialize(j) == Ok(v) <==>
              (v <= MAX_SAFE_INTEGER && (j == Natural(v) || (j.Signed? && j.i == v))) || j == Text(Decimal(v))
  {
    if j.Text? {
      ParseIsPrintBackwards(j.s, v);
    }
  }

  // ---- Optional counters ----

  function SerializeOption(v: Option<u64>): Json {
    match v
    case Some(n) => Serialize(n)
    case None => Null
  }

  function DeserializeOption(j: Json): Result<Option<u64>> {
    if j == Null then Ok(None)
    else
      match Deserialize(j)
      case Ok(n) => Ok(Some(n))
      case Err(e) => Err(e)
  }

  /** An absent counter and every value survive the round trip, and no value is ever written as null. */
  lemma OptionRoundTrip(v: Option<u64>)
    ensures DeserializeOption(SerializeOption(v)) == Ok(v)
    ensures SerializeOption(v) == Null <==> v.None?
  {
    if v.Some? {
      RoundTrip(v.value);
    }
  }
}
