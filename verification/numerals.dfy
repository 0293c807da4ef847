/** Digit strings: Go's `strconv.FormatInt` in bases 8, 10 and 16, the value of
    a digit string, and `encoding/hex` decoding. */
module Numerals {
  import opened Wrappers

  /** The lower-case digit for `d`, as `strconv.FormatInt` writes it. */
  function DigitChar(d: nat): char
    requires d < 16
  {
    if d < 10 then ('0' as int + d) as char else ('a' as int + d - 10) as char
  }

  /** The value of a digit character in any base up to 16 (both letter cases);
      16 for a character that is not a digit in any such base. */
  function DigitValue(c: char): nat {
    if '0' <= c <= '9' then c as int - '0' as int
    else if 'a' <= c <= 'f' then c as int - 'a' as int + 10
    else if 'A' <= c <= 'F' then c as int - 'A' as int + 10
    else 16
  }

  predicate IsDigitIn(c: char, base: nat) {
    DigitValue(c) < base
  }

  predicate AllDigitsIn(s: string, base: nat) {
    forall i :: 0 <= i < |s| ==> IsDigitIn(s[i], base)
  }

  predicate IsHexDigit(c: char) {
    IsDigitIn(c, 16)
  }

  function Pow(b: nat, k: nat): nat {
    if k == 0 then 1 else b * Pow(b, k - 1)
  }

  /** The number a digit string denotes, most significant digit first. */
  function Value(s: string, base: nat): nat {
    if |s| == 0 then 0 else Value(s[..|s| - 1], base) * base + DigitValue(s[|s| - 1])
  }

  /** Euclidean division facts for a base of at least 2. */
  lemma DivMod(n: nat, base: nat)
    requires base >= 2
    ensures n == (n / base) * base + n % base
    ensures 0 <= n % base < base
    ensures n >= base ==> 1 <= n / base < n
  {
  }

  /** `strconv.FormatInt(n, base)` for a non-negative `n`. */
  function Format(n: nat, base: nat): (r: string)
    requires 2 <= base <= 16
    ensures |r| >= 1
    ensures AllDigitsIn(r, base)
    ensures r[0] == '0' ==> n == 0 && r == "0"
    ensures forall i :: 0 <= i < |r| ==> '0' <= r[i] <= '9' || 'a' <= r[i] <= 'f'
    decreases n
  {
    if n < base then [DigitChar(n)]
    else
      DivMod(n, base);
      var f := Format(n / base, base);
      var r := f + [DigitChar(n % base)];
      assert r[0] == f[0];
      assert forall i :: 0 <= i < |f| ==> r[i] == f[i];
      r
  }

  /** Reading back a formatted number gives the number. */
  lemma {:induction false} ValueOfFormat(n: nat, base: nat)
    requires 2 <= base <= 16
    ensures Value(Format(n, base), base) == n
    decreases n
  {
    DivMod(n, base);
    if n >= base {
      var f := Format(n / base, base);
      var r := f + [DigitChar(n % base)];
      assert Format(n, base) == r;
      assert r[..|r| - 1] == f;
      assert DigitValue(r[|r| - 1]) == n % base;
      ValueOfFormat(n / base, base);
      assert Value(r, base) == (n / base) * base + n % base;
    } else {
      assert DigitValue(DigitChar(n)) == n;
    }
  }

  /** Formatting is injective: distinct numbers print differently. */
  lemma FormatInjective(m: nat, n: nat, base: nat)
    requires 2 <= base <= 16
    requires Format(m, base) == Format(n, base)
    ensures m == n
  {
    ValueOfFormat(m, base);
    ValueOfFormat(n, base);
  }

  lemma DivBound(n: nat, b: nat, m: nat)
    requires b >= 1
    ensures n / b < m <==> n < b * m
  {
    var q := n / b;
    assert n == b * q + n % b;
    if q < m {
      assert b * q <= b * (m - 1) by {
        assert q <= m - 1;
      }
    } else {
      assert b * q >= b * m;
    }
  }

  /** A number needs at most `k` digits exactly when it is below `base^k`. */
  lemma {:induction false} FormatLength(n: nat, base: nat, k: nat)
    requires 2 <= base <= 16
    requires k >= 1
    ensures |Format(n, base)| <= k <==> n < Pow(base, k)
    decreases n
  {
    if n < base {
      PowAtLeastBase(base, k);
    } else {
      if k == 1 {
        assert Pow(base, 1) == base;
      } else {
        FormatLength(n / base, base, k - 1);
        DivBound(n, base, Pow(base, k - 1));
      }
    }
  }

  lemma {:induction false} PowAtLeastBase(base: nat, k: nat)
    requires base >= 1 && k >= 1
    ensures Pow(base, k) >= base
    decreases k
  {
    if k > 1 {
      PowAtLeastBase(base, k - 1);
      assert base * Pow(base, k - 1) >= base * 1;
    }
  }

  /** Leading zeros do not change the value of a digit string. */
  lemma {:induction false} ValueLeadingZeros(z: nat, s: string, base: nat)
    ensures Value(Repeat0(z) + s, base) == Value(s, base)
    decreases |s|
  {
    var t := Repeat0(z) + s;
    if |s| == 0 {
      assert t == Repeat0(z);
      ValueOfZeros(z, base);
    } else {
      assert t[..|t| - 1] == Repeat0(z) + s[..|s| - 1];
      assert t[|t| - 1] == s[|s| - 1];
      ValueLeadingZeros(z, s[..|s| - 1], base);
    }
  }

  /** `z` zero digits. */
  function Repeat0(z: nat): (r: string)
    ensures |r| == z && forall i :: 0 <= i < z ==> r[i] == '0'
  {
    if z == 0 then "" else "0" + Repeat0(z - 1)
  }

  lemma {:induction false} ValueOfZeros(z: nat, base: nat)
    ensures Value(Repeat0(z), base) == 0
    decreases z
  {
    if z > 0 {
      var t := Repeat0(z);
      assert t[..z - 1] == Repeat0(z - 1);
      ValueOfZeros(z - 1, base);
    }
  }

  /** Go's `%d` for an `int`. */
  function Itoa(n: int): (r: string)
    ensures n >= 0 ==> r == Format(n, 10)
    ensures n < 0 ==> r == "-" + Format(-n, 10)
  {
    if n < 0 then "-" + Format(-n, 10) else Format(n, 10)
  }

  /** `hex.DecodeString`: `None` for an odd length or a non-hex character. */
  function HexDecode(s: string): (r: Option<seq<byte>>)
    ensures r.Some? <==> |s| % 2 == 0 && AllDigitsIn(s, 16)
    ensures r.Some? ==> |r.value| == |s| / 2
    ensures r.Some? ==> forall i :: 0 <= i < |r.value| ==>
      r.value[i] as int == DigitValue(s[2 * i]) * 16 + DigitValue(s[2 * i + 1])
  {
    if |s| % 2 != 0 || !AllDigitsIn(s, 16) then None
    else Some(seq(|s| / 2, i requires 0 <= i < |s| / 2 => HexByte(s[2 * i], s[2 * i + 1])))
  }

  /** The byte two hex digits spell, high digit first. */
  function HexByte(hi: char, lo: char): (r: byte)
    requires IsHexDigit(hi) && IsHexDigit(lo)
    ensures r as int == DigitValue(hi) * 16 + DigitValue(lo)
  {
    (DigitValue(hi) * 16 + DigitValue(lo)) as byte
  }

  /** `hex.EncodeToString`: two lower-case digits per byte, high digit first. */
  function HexEncode(b: seq<byte>): (r: string)
    ensures |r| == 2 * |b|
    ensures AllDigitsIn(r, 16)
    ensures forall i :: 0 <= i < |b| ==>
      r[2 * i] == DigitChar(b[i] as int / 16) && r[2 * i + 1] == DigitChar(b[i] as int % 16)
  {
    if |b| == 0 then ""
    else
      var rest := HexEncode(b[1..]);
      var head := [DigitChar(b[0] as int / 16), DigitChar(b[0] as int % 16)];
      assert forall i :: 2 <= i < 2 + |rest| ==> (head + rest)[i] == rest[i - 2];
      assert forall i :: 1 <= i < |b| ==> b[i] == b[1..][i - 1];
      head + rest
  }

  /** A digit character reads back as its digit. */
  lemma DigitRoundTrip(d: nat)
    requires d < 16
    ensures DigitValue(DigitChar(d)) == d
  {
  }

  /** A byte is its high digit times 16 plus its low digit. */
  lemma ByteDigits(x: int)
    requires 0 <= x < 256
    ensures 0 <= x / 16 < 16 && 0 <= x % 16 < 16 && (x / 16) * 16 + x % 16 == x
  {
  }

  /** Hex decoding undoes hex encoding. */
  lemma HexRoundTrip(b: seq<byte>)
    ensures HexDecode(HexEncode(b)) == Some(b)
  {
    var s := HexEncode(b);
    var d := HexDecode(s);
    assert |s| % 2 == 0;
    forall i | 0 <= i < |b|
      ensures d.value[i] == b[i]
    {
      var x := b[i] as int;
      ByteDigits(x);
      DigitRoundTrip(x / 16);
      DigitRoundTrip(x % 16);
    }
    assert d.value == b;
  }

  /** The first position of `s` holding a non-hex character; `None` when every
      character is a hex digit. */
  function FirstNonHex(s: string): (r: Option<nat>)
    ensures r.None? <==> AllDigitsIn(s, 16)
    ensures r.Some? ==> r.value < |s| && !IsHexDigit(s[r.value]) &&
                        forall j :: 0 <= j < r.value ==> IsHexDigit(s[j])
  {
    if |s| == 0 then None
    else if !IsHexDigit(s[0]) then Some(0)
    else match FirstNonHex(s[1..])
      case None => None
      case Some(k) => Some(k + 1)
  }

  /** The upper-case digit for `d`, as `%X` writes it. */
  function UpperDigitChar(d: nat): (c: char)
    requires d < 16
    ensures DigitValue(c) == d
    ensures '0' <= c <= '9' || 'A' <= c <= 'F'
  {
    if d < 10 then ('0' as int + d) as char else ('A' as int + d - 10) as char
  }

  /** `strconv.IsPrint` of a rune up to U+00FF: the printable ASCII range and
      the Latin-1 letters and symbols, except the soft hyphen. */
  predicate PrintableByte(b: byte) {
    (0x20 <= b as int <= 0x7E) || (0xA1 <= b as int <= 0xFF && b as int != 0xAD)
  }

  /** The UTF-8 bytes of the rune U+0000 to U+00FF with value `b`, one
      character per byte: the byte itself below 0x80, otherwise a lead byte
      0xC2 or 0xC3 carrying the top two bits and a continuation byte carrying
      the low six. */
  function Utf8Of(b: byte): (r: string)
    ensures b as int < 0x80 ==> r == [b as int as char]
    ensures b as int >= 0x80 ==>
      (|r| == 2 &&
       0xC2 <= r[0] as int <= 0xC3 && 0x80 <= r[1] as int <= 0xBF &&
       (r[0] as int - 0xC0) * 64 + (r[1] as int - 0x80) == b as int)
  {
    if b as int < 0x80 then [b as int as char]
    else [(0xC0 + b as int / 64) as char, (0x80 + b as int % 64) as char]
  }

  /** Two leading zeros add nothing to a value. */
  lemma PaddedValue(hi: char, lo: char)
    ensures Value(['0', '0', hi, lo], 16) == DigitValue(hi) * 16 + DigitValue(lo)
  {
    var digits := ['0', '0', hi, lo];
    assert digits[..3] == ['0', '0', hi];
    assert digits[..3][..2] == ['0', '0'];
    assert ['0', '0'][..1] == ['0'];
    assert ['0'][..0] == [];
    assert Value(['0', '0'], 16) == 0;
  }

  /** `%#U` of a byte: "U+", its value as four upper-case hex digits, and the
      character, UTF-8 encoded, in single quotes when it is printable. */
  function RuneText(b: byte): (r: string)
    ensures |r| >= 6 && r[..2] == "U+" && Value(r[2..6], 16) == b as int
    ensures forall i :: 2 <= i < 6 ==> '0' <= r[i] <= '9' || 'A' <= r[i] <= 'F'
    ensures PrintableByte(b) ==> r[6..] == [' ', '\''] + Utf8Of(b) + ['\'']
    ensures !PrintableByte(b) ==> |r| == 6
  {
    var hi := UpperDigitChar(b as int / 16);
    var lo := UpperDigitChar(b as int % 16);
    var digits := ['0', '0', hi, lo];
    PaddedValue(hi, lo);
    var r := "U+" + digits + (if PrintableByte(b) then [' ', '\''] + Utf8Of(b) + ['\''] else []);
    assert r[2..6] == digits;
    r
  }

  /** The error `hex.DecodeString` gives for an even-length string holding a
      non-hex character: the first such byte, as `%#U`. */
  function HexDecodeError(s: string): (r: string)
    requires |s| % 2 == 0 && !AllDigitsIn(s, 16)
    ensures exists i :: (0 <= i < |s| && !IsHexDigit(s[i]) && (forall j :: 0 <= j < i ==> IsHexDigit(s[j])) &&
                         r == "encoding/hex: invalid byte: " + RuneText(BytesOf(s)[i]))
  {
    var i := FirstNonHex(s).value;
    "encoding/hex: invalid byte: " + RuneText(BytesOf(s)[i])
  }

  /** A 'g' in the second position is reported with its code and quoted. */
  lemma InvalidByteReported()
    ensures !AllDigitsIn("0g", 16) && HexDecodeError("0g") == "encoding/hex: invalid byte: U+0067 'g'"
  {
    assert !IsHexDigit("0g"[1]);
    assert BytesOf("0g")[1] as int == 0x67;
    assert RuneText(BytesOf("0g")[1]) == "U+0067 'g'";
  }

  /** A Latin-1 letter is quoted as its two UTF-8 bytes: 0xE9 ('é') as C3 A9. */
  lemma LatinByteQuotedAsUtf8()
    ensures RuneText(0xE9) == "U+00E9 '" + [0xC3 as char, 0xA9 as char] + "'"
  {
    assert Utf8Of(0xE9) == [0xC3 as char, 0xA9 as char];
  }
}
