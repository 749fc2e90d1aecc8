/** How the upload panel labels a stored file's size: the unit tier chosen from the byte
    count, and the exact text of the smallest tier, a whole number of bytes. */
module FileSize {

  const KiB: nat := 1024
  const MiB: nat := 1024 * 1024

  /** The three display tiers, smallest first. */
  datatype Tier = Bytes | Kilobytes | Megabytes

  /** The position of a tier in the order Bytes < Kilobytes < Megabytes. */
  function Rank(t: Tier): nat
  {
    match t
    case Bytes => 0
    case Kilobytes => 1
    case Megabytes => 2
  }

  /** The unit written after the number. */
  function Unit(t: Tier): string
  {
    match t
    case Bytes => " B"
    case Kilobytes => " KB"
    case Megabytes => " MB"
  }

  /** The tier `formatFileSize` picks: below one kibibyte in bytes, below one mebibyte in
      kilobytes, otherwise in megabytes. */
  function TierOf(bytes: nat): (t: Tier)
    ensures t == Bytes <==> bytes < KiB
    ensures t == Kilobytes <==> KiB <= bytes < MiB
    ensures t == Megabytes <==> MiB <= bytes
  {
    if bytes < KiB then Bytes
    else if bytes < MiB then Kilobytes
    else Megabytes
  }

  /** A larger file never gets a smaller unit. */
  lemma TierMonotonic(a: nat, b: nat)
    requires a <= b
    ensures Rank(TierOf(a)) <= Rank(TierOf(b))
  {
  }

  function DigitChar(d: nat): (c: char)
    requires d < 10
  {
    "0123456789"[d]
  }

  predicate IsDigit(c: char)
  {
    '0' <= c <= '9'
  }

  function DigitValue(c: char): (d: nat)
    requires IsDigit(c)
    ensures d < 10
  {
    (c - '0') as nat
  }

  /** The decimal numeral JavaScript writes for a whole number from 0 up to, but excluding,
      10^21 (from there on it switches to exponent notation): digits without leading zeros. */
  function Decimal(n: nat): (s: string)
    ensures |s| > 0
    ensures forall k :: 0 <= k < |s| ==> IsDigit(s[k])
    ensures s[0] == '0' ==> n == 0 && |s| == 1
  {
    if n < 10 then [DigitChar(n)]
    else Decimal(n / 10) + [DigitChar(n % 10)]
  }

  /** The value of a string of decimal digits. */
  function ParseDecimal(s: string): nat
    requires forall k :: 0 <= k < |s| ==> IsDigit(s[k])
  {
    if |s| == 0 then 0
    else 10 * ParseDecimal(s[..|s| - 1]) + DigitValue(s[|s| - 1])
  }

  lemma DigitRoundTrip(d: nat)
    requires d < 10
    ensures DigitValue(DigitChar(d)) == d
  {
  }

  /** Reading a written numeral gives back the number. */
  lemma {:induction false} DecimalRoundTrip(n: nat)
    ensures ParseDecimal(Decimal(n)) == n
  {
    DigitRoundTrip(n % 10);
    if n >= 10 {
      var s := Decimal(n);
      assert s[..|s| - 1] == Decimal(n / 10);
      DecimalRoundTrip(n / 10);
    }
  }

  /** `formatFileSize` for a size in the byte tier: the whole number, then " B". */
  function ByteLabel(bytes: nat): (text: string)
    requires TierOf(bytes) == Bytes
    ensures |text| > |Unit(Bytes)|
    ensures text[|text| - |Unit(Bytes)|..] == Unit(Bytes)
    ensures forall k :: 0 <= k < |text| - |Unit(Bytes)| ==> IsDigit(text[k])
  {
    Decimal(bytes) + Unit(Bytes)
  }

  /** The byte text is exact: the numeral in front of the unit reads back as the size. */
  lemma ByteLabelExact(bytes: nat)
    requires TierOf(bytes) == Bytes
    ensures var text := ByteLabel(bytes);
            var digits := text[..|text| - |Unit(Bytes)|];
            && (forall k :: 0 <= k < |digits| ==> IsDigit(digits[k]))
            && (|digits| == 1 || digits[0] != '0')
            && ParseDecimal(digits) == bytes
  {
    var text := ByteLabel(bytes);
    assert text[..|text| - |Unit(Bytes)|] == Decimal(bytes);
    DecimalRoundTrip(bytes);
  }
}
