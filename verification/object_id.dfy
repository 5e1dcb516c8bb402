/** MongoDB ObjectIds as the application handles them: `_id.toString()`
    writes 24 lower-case hexadecimal digits, and `findById` casts a string
    back, failing (throwing a cast error) on anything that is not 24
    hexadecimal digits. */
module ObjectId {
  import opened Wrappers

  const HexLength: nat := 24

  function Pow16(n: nat): (r: nat)
    ensures r >= 1
  {
    if n == 0 then 1 else 16 * Pow16(n - 1)
  }

  /** ObjectIds are 12-byte values: exactly the numbers 24 hex digits can write. */
  type Oid = n: nat | n < Pow16(HexLength)

  function HexDigit(d: nat): char
    requires d < 16
  {
    "0123456789abcdef"[d]
  }

  /** Value of one hexadecimal digit; the cast accepts either case. */
  function DigitValue(c: char): (r: Option<nat>)
    ensures r.Some? ==> r.value < 16
  {
    if '0' <= c <= '9' then Some(c as nat - '0' as nat)
    else if 'a' <= c <= 'f' then Some(c as nat - 'a' as nat + 10)
    else if 'A' <= c <= 'F' then Some(c as nat - 'A' as nat + 10)
    else None
  }

  /** `n` written big-endian in exactly `width` hex digits (higher digits dropped). */
  function ToHex(n: nat, width: nat): (r: string)
    ensures |r| == width
  {
    if width == 0 then "" else ToHex(n / 16, width - 1) + [HexDigit(n % 16)]
  }

  /** The value of a string of hex digits, or None if some character is not one. */
  function ParseHex(s: string): (r: Option<nat>)
    ensures r.Some? ==> r.value < Pow16(|s|)
  {
    if s == [] then Some(0)
    else
      match (ParseHex(s[..|s| - 1]), DigitValue(s[|s| - 1]))
      case (Some(high), Some(low)) => Some(high * 16 + low)
      case _ => None
  }

  /** `_id.toString()`. */
  function ToString(id: Oid): (r: string)
    ensures |r| == HexLength
  {
    ToHex(id, HexLength)
  }

  /** The string-to-ObjectId cast of a query by id; None is the cast error. */
  function Cast(s: string): (r: Option<Oid>)
    ensures r.Some? ==> |s| == HexLength
  {
    if |s| != HexLength then None
    else
      match ParseHex(s)
      case Some(v) => Some(v)
      case None => None
  }

  lemma DigitRoundTrip(d: nat)
    requires d < 16
    ensures DigitValue(HexDigit(d)) == Some(d)
  {
  }

  /** Parsing the fixed-width hex writing of a number that fits gives it back. */
  lemma {:induction false} ParseToHex(n: nat, width: nat)
    requires n < Pow16(width)
    ensures ParseHex(ToHex(n, width)) == Some(n)
  {
    if width > 0 {
      var s := ToHex(n, width);
      var high, low := n / 16, n % 16;
      SplitLastDigit(n, Pow16(width - 1));
      ParseToHex(high, width - 1);
      assert s[..|s| - 1] == ToHex(high, width - 1);
      assert s[|s| - 1] == HexDigit(low);
      DigitRoundTrip(low);
      assert ParseHex(s) == Some(high * 16 + low);
    }
  }

  lemma SplitLastDigit(n: nat, p: nat)
    requires n < 16 * p
    ensures n / 16 < p && n / 16 * 16 + n % 16 == n
  {
  }

  /** Every id survives `toString` followed by the cast: a token's
      `userId` names the very user it was issued for. */
  lemma CastToString(id: Oid)
    ensures Cast(ToString(id)) == Some(id)
  {
    ParseToHex(id, HexLength);
  }

  /** Different ids have different strings. */
  lemma ToStringInjective(a: Oid, b: Oid)
    requires ToString(a) == ToString(b)
    ensures a == b
  {
    CastToString(a);
    CastToString(b);
  }
}
