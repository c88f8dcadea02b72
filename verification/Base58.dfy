/**
 The encoders behind the wallet import format: hexadecimal text, big-endian numbers, base 58.
 */
module Base58 {
  import opened Wrappers
  import opened Bitcoin
  import opened Sequences

  type Digit = d: nat | d < 58

  const ONE_TO_NINE: string := "123456789"
  const UPPER_A_TO_H: string := "ABCDEFGH"
  const UPPER_J_TO_N: string := "JKLMN"
  const UPPER_P_TO_Z: string := "PQRSTUVWXYZ"
  const LOWER_A_TO_K: string := "abcdefghijk"
  const LOWER_M_TO_Z: string := "mnopqrstuvwxyz"

  const BASE58_SYMBOLS: string :=
    ONE_TO_NINE + UPPER_A_TO_H + UPPER_J_TO_N + UPPER_P_TO_Z + LOWER_A_TO_K + LOWER_M_TO_Z

  // ---------- Bytes to numbers ----------

  /** `Nat.pow`. */
  function Pow(b: nat, e: nat): nat
  {
    if e == 0 then 1 else b * Pow(b, e - 1)
  }

  /** The number that the bytes denote, most significant first. */
  ghost function BigEndian(bytes: seq<Byte>): nat
  {
    if bytes == [] then 0 else 256 * BigEndian(bytes[..|bytes| - 1]) + bytes[|bytes| - 1]
  }

  lemma {:induction false} BigEndianCons(bytes: seq<Byte>)
    requires bytes != []
    ensures BigEndian(bytes) == bytes[0] * Pow(256, |bytes| - 1) + BigEndian(bytes[1..])
  {
    var n := |bytes| - 1;
    if n == 0 {
      assert bytes[..0] == [] && bytes[1..] == [];
    } else {
      BigEndianCons(bytes[..n]);
      assert bytes[..n][1..] == bytes[1..][..n - 1];
      assert bytes[1..][n - 1] == bytes[n];
      ghost var x := bytes[0] * Pow(256, n - 1);
      assert 256 * x == bytes[0] * Pow(256, n);
    }
  }

  method BytesToDecimal(bytes: seq<Byte>) returns (sum: nat)
    ensures sum == BigEndian(bytes)
  {
    sum := 0;
    for i := 0 to |bytes|
      invariant sum + BigEndian(bytes[i..]) == BigEndian(bytes)
    {
      BigEndianCons(bytes[i..]);
      assert bytes[i..][1..] == bytes[i + 1..];
      sum := sum + bytes[i] * Pow(256, |bytes| - i - 1);
    }
  }

  // ---------- Numbers to base 58 ----------

  /** The number that the digits denote, most significant first. */
  ghost function Value(digits: seq<Digit>): nat
  {
    if digits == [] then 0 else 58 * Value(digits[..|digits| - 1]) + digits[|digits| - 1]
  }

  ghost predicate NoLeadingZero(digits: seq<Digit>)
  {
    digits != [] ==> digits[0] != 0
  }

  function Reverse(s: seq<Digit>): (r: seq<Digit>)
    ensures |r| == |s| && forall i | 0 <= i < |s| :: r[i] == s[|s| - i - 1]
  {
    if s == [] then [] else [s[|s| - 1]] + Reverse(s[..|s| - 1])
  }

  lemma ReverseCons(s: seq<Digit>, d: Digit)
    ensures Reverse(s + [d]) == [d] + Reverse(s)
  {
    assert (s + [d])[..|s|] == s;
  }

  /** The value of digits followed by `rest`. */
  lemma {:induction false} ValueConcat(digits: seq<Digit>, rest: seq<Digit>)
    ensures Value(digits + rest) == Value(digits) * Pow(58, |rest|) + Value(rest)
    decreases |rest|
  {
    if rest == [] {
      assert digits + rest == digits;
    } else {
      var n := |rest| - 1;
      ValueConcat(digits, rest[..n]);
      assert (digits + rest)[..|digits + rest| - 1] == digits + rest[..n];
      assert 58 * (Value(digits) * Pow(58, n)) == Value(digits) * Pow(58, n + 1);
    }
  }

  /** The number that a quotient and the digits found so far, least significant first, denote. */
  ghost function Denoted(rest: nat, buffer: seq<Digit>): nat
  {
    rest * Pow(58, |buffer|) + Value(Reverse(buffer))
  }

  /** One division step denotes the same number. */
  lemma DivisionStep(rest: nat, buffer: seq<Digit>, remainder: Digit)
    requires remainder == rest % 58
    ensures Denoted(rest / 58, buffer + [remainder]) == Denoted(rest, buffer)
  {
    ReverseCons(buffer, remainder);
    ValueConcat([remainder], Reverse(buffer));
    assert Value([remainder]) == remainder by {
      assert [remainder][..0] == [];
    }
    SplitProduct(rest, Pow(58, |buffer|));
  }

  lemma SplitProduct(n: nat, p: nat)
    ensures n * p == (n / 58) * (58 * p) + (n % 58) * p
  {
    var q := n / 58;
    assert n == 58 * q + n % 58;
    assert n * p == (58 * q + n % 58) * p;
  }

  method DecimalToBase58(decimal: nat) returns (digits: seq<Digit>)
    ensures Value(digits) == decimal && NoLeadingZero(digits)
  {
    var buffer: seq<Digit> := [];
    var rest := decimal;
    while rest > 0
      invariant Denoted(rest, buffer) == decimal
      invariant rest == 0 && buffer != [] ==> buffer[|buffer| - 1] != 0
    {
      var remainder: Digit := rest % 58;
      DivisionStep(rest, buffer, remainder);
      buffer := buffer + [remainder];
      rest := rest / 58;
    }
    digits := Reverse(buffer);
    assert Denoted(0, buffer) == Value(digits);
  }

  /** Base 58 digits without a leading zero are unique: two such representations of a number are equal. */
  lemma {:induction false} DigitsAreUnique(x: seq<Digit>, y: seq<Digit>)
    requires Value(x) == Value(y) && NoLeadingZero(x) && NoLeadingZero(y)
    ensures x == y
    decreases |x|
  {
    if x == [] {
      if y != [] {
        PositiveValue(y);
      }
    } else {
      PositiveValue(x);
      var m, n := |x| - 1, |y| - 1;
      SameQuotient(Value(x[..m]), x[m], Value(y[..n]), y[n]);
      DigitsAreUnique(x[..m], y[..n]);
      assert x == x[..m] + [x[m]] && y == y[..n] + [y[n]];
    }
  }

  lemma SameQuotient(p: nat, d: Digit, q: nat, e: Digit)
    requires 58 * p + d == 58 * q + e
    ensures p == q && d == e
  {
  }

  lemma {:induction false} PositiveValue(digits: seq<Digit>)
    requires digits != [] && NoLeadingZero(digits)
    ensures Value(digits) > 0
    decreases |digits|
  {
    if |digits| > 1 {
      PositiveValue(digits[..|digits| - 1]);
    }
  }

  lemma BoundsStep(d: Digit, p: nat, v: nat, e: Digit)
    requires d * p <= v < (d + 1) * p
    ensures d * (58 * p) <= 58 * v + e < (d + 1) * (58 * p)
  {
    assert d * (58 * p) == 58 * (d * p) && (d + 1) * (58 * p) == 58 * ((d + 1) * p);
  }

  /** Digits bound the value: with `n` digits it lies between the first digit and the next, times `58^(n-1)`. */
  lemma {:induction false} ValueBounds(digits: seq<Digit>)
    requires digits != []
    ensures digits[0] * Pow(58, |digits| - 1) <= Value(digits) < (digits[0] + 1) * Pow(58, |digits| - 1)
    decreases |digits|
  {
    var n := |digits| - 1;
    if n > 0 {
      ValueBounds(digits[..n]);
      BoundsStep(digits[0], Pow(58, n - 1), Value(digits[..n]), digits[n]);
    } else {
      assert digits[..0] == [];
    }
  }

  lemma {:induction false} PowMonotone(b: nat, m: nat, n: nat)
    requires b >= 1 && m <= n
    ensures 1 <= Pow(b, m) <= Pow(b, n)
    decreases n
  {
    if m < n {
      PowMonotone(b, m, n - 1);
    } else if n > 0 {
      PowMonotone(b, m - 1, n - 1);
    }
  }

  lemma MulMonotone(x: nat, y: nat, p: nat)
    requires x <= y
    ensures x * p <= y * p
  {
  }

  /** If `d * 58^k` is below `(e + 1) * 58^n`, for a digit `e` and a digit `d > 0`, then `k` is at most `n`. */
  lemma {:induction false} LengthBound(d: Digit, k: nat, e: Digit, n: nat)
    requires d > 0 && d * Pow(58, k) < (e + 1) * Pow(58, n)
    ensures k <= n
  {
    if n < k {
      PowMonotone(58, n + 1, k);
      MulMonotone(e + 1, 58, Pow(58, n));
      MulMonotone(1, d, Pow(58, k));
    }
  }

  /** A value between `d * 58^k` and `(d + 1) * 58^k`, for a digit `d > 0`, has `k + 1` digits, of which the first is `d`. */
  lemma DigitsOf(digits: seq<Digit>, d: Digit, k: nat)
    requires NoLeadingZero(digits) && d > 0
    requires d * Pow(58, k) <= Value(digits) < (d + 1) * Pow(58, k)
    ensures |digits| == k + 1 && digits[0] == d
  {
    PowMonotone(58, 0, k);
    MulMonotone(1, d, Pow(58, k));
    ValueBounds(digits);
    LengthBound(d, k, digits[0], |digits| - 1);
    LengthBound(digits[0], |digits| - 1, d, k);
    if digits[0] < d {
      MulMonotone(digits[0] + 1, d, Pow(58, k));
    } else if d < digits[0] {
      MulMonotone(d + 1, digits[0], Pow(58, k));
    }
  }

  // ---------- Text ----------

  function EncodeBase58(digits: seq<Digit>): (text: string)
    ensures |text| == |digits| && forall i | 0 <= i < |text| :: text[i] == BASE58_SYMBOLS[digits[i]]
  {
    if digits == [] then "" else EncodeBase58(digits[..|digits| - 1]) + [BASE58_SYMBOLS[digits[|digits| - 1]]]
  }

  /** The place of a base 58 symbol in the alphabet, which leaves out 0, I, O and l. */
  function DigitOf(c: char): int
  {
    if c <= '9' then c as int - 49
    else if c <= 'H' then c as int - 56
    else if c <= 'N' then c as int - 57
    else if c <= 'Z' then c as int - 58
    else if c <= 'k' then c as int - 64
    else c as int - 65
  }

  /** The consecutive symbols that start with `c`. */
  ghost predicate IsRange(part: string, c: char)
  {
    forall i | 0 <= i < |part| :: part[i] as int == c as int + i
  }

  lemma SymbolRanges()
    ensures IsRange(ONE_TO_NINE, '1') && IsRange(UPPER_A_TO_H, 'A') && IsRange(UPPER_J_TO_N, 'J')
    ensures IsRange(UPPER_P_TO_Z, 'P') && IsRange(LOWER_A_TO_K, 'a') && IsRange(LOWER_M_TO_Z, 'm')
  {
  }

  lemma SymbolParts(d: Digit)
    ensures BASE58_SYMBOLS[d] ==
      if d < 9 then ONE_TO_NINE[d]
      else if d < 17 then UPPER_A_TO_H[d - 9]
      else if d < 22 then UPPER_J_TO_N[d - 17]
      else if d < 33 then UPPER_P_TO_Z[d - 22]
      else if d < 44 then LOWER_A_TO_K[d - 33]
      else LOWER_M_TO_Z[d - 44]
  {
  }

  lemma SymbolDenotesDigit(d: Digit)
    ensures DigitOf(BASE58_SYMBOLS[d]) == d
  {
    SymbolRanges();
    SymbolParts(d);
  }

  /** Different digits have different texts. */
  lemma EncodingIsInjective(x: seq<Digit>, y: seq<Digit>)
    requires EncodeBase58(x) == EncodeBase58(y)
    ensures x == y
  {
    assert |x| == |EncodeBase58(x)| == |y|;
    forall i | 0 <= i < |x|
      ensures x[i] == y[i]
    {
      SymbolDenotesDigit(x[i]);
      SymbolDenotesDigit(y[i]);
      assert EncodeBase58(x)[i] == BASE58_SYMBOLS[x[i]];
    }
  }

  const UPPER_SYMBOLS: string := "0123456789ABCDEF"

  const SYMBOLS: string := "0123456789abcdef"

  /** Two upper-case hexadecimal symbols for each byte. */
  function Encode(bytes: seq<Byte>): (text: string)
    ensures |text| == 2 * |bytes|
    ensures forall i | 0 <= i < |bytes| ::
              text[2 * i] == UPPER_SYMBOLS[bytes[i] / 16] && text[2 * i + 1] == UPPER_SYMBOLS[bytes[i] % 16]
  {
    if bytes == [] then
      ""
    else
      var n := |bytes| - 1;
      Encode(bytes[..n]) + [UPPER_SYMBOLS[bytes[n] / 16], UPPER_SYMBOLS[bytes[n] % 16]]
  }

  /** The value of a hexadecimal symbol, in either case. */
  function HexValue(c: char): Option<Byte>
  {
    if '0' <= c <= '9' then Some(c as int - 48)
    else if 'A' <= c <= 'F' then Some(c as int - 55)
    else if 'a' <= c <= 'f' then Some(c as int - 87)
    else None
  }

  lemma HexSymbols(i: nat)
    requires i < 16
    ensures HexValue(UPPER_SYMBOLS[i]) == Some(i) && HexValue(SYMBOLS[i]) == Some(i)
  {
  }

  lemma SymbolOf(c: char)
    requires HexValue(c).Some?
    ensures c in UPPER_SYMBOLS || c in SYMBOLS
  {
    var v := HexValue(c).value;
    assert c == UPPER_SYMBOLS[v] || c == SYMBOLS[v];
  }

  /** Does the table give the symbols' values? */
  ghost predicate IsTable(store: map<char, Byte>)
  {
    forall c | c in store :: HexValue(c) == Some(store[c])
  }

  method PutAll(store: map<char, Byte>, symbols: string) returns (r: map<char, Byte>)
    requires |symbols| == 16 && forall i | 0 <= i < 16 :: HexValue(symbols[i]) == Some(i)
    requires IsTable(store)
    ensures IsTable(r) && forall c :: c in r <==> c in store || c in symbols
  {
    hide HexValue;
    r := store;
    for i := 0 to 16
      invariant IsTable(r) && forall c :: c in r <==> c in store || c in symbols[..i]
    {
      SliceStep(symbols, i);
      r := r[symbols[i] := i];
    }
    assert symbols[..16] == symbols;
  }

  /** `symbol_values`. */
  method SymbolValues() returns (store: map<char, Byte>)
    ensures forall c :: match HexValue(c) case None => c !in store case Some(v) => c in store && store[c] == v
  {
    forall i: nat | i < 16 {
      HexSymbols(i);
    }
    store := PutAll(map[], UPPER_SYMBOLS);
    store := PutAll(store, SYMBOLS);
    forall c | HexValue(c).Some?
      ensures c in store
    {
      SymbolOf(c);
    }
  }

  /** Do the bytes hold the values of the symbols, two symbols to a byte? An odd last symbol is ignored. */
  ghost predicate IsDecoded(text: string, bytes: seq<Byte>)
  {
    && |bytes| == |text| / 2
    && forall i | 0 <= i < |bytes| ::
         && HexValue(text[2 * i]).Some? && HexValue(text[2 * i + 1]).Some?
         && bytes[i] == 16 * HexValue(text[2 * i]).value + HexValue(text[2 * i + 1]).value
  }

  /** `hex_string_to_nat8_array`; `None` is its trap on an invalid symbol. */
  method HexStringToBytes(text: string) returns (r: Option<seq<Byte>>)
    ensures r.None? <==> exists c :: c in text && HexValue(c).None?
    ensures r.Some? ==> IsDecoded(text, r.value)
  {
    var symbols := SymbolValues();
    var bytes := new Byte[|text| / 2](_ => 0);
    var totalSum: nat := 0;
    for index := 0 to |text|
      invariant forall k | 0 <= k < index :: HexValue(text[k]).Some?
      invariant totalSum == if index % 2 == 0 then 0 else 16 * HexValue(text[index - 1]).value
      invariant forall i | 0 <= i < index / 2 ::
                  bytes[i] == 16 * HexValue(text[2 * i]).value + HexValue(text[2 * i + 1]).value
    {
      if text[index] !in symbols {
        return None;
      }
      var current := symbols[text[index]];
      if index % 2 == 0 {
        totalSum := totalSum + current * 16;
      } else {
        totalSum := totalSum + current;
        bytes[index / 2] := totalSum;
        totalSum := 0;
      }
    }
    return Some(bytes[..]);
  }

  lemma {:induction false} EncodedByte(bytes: seq<Byte>, i: nat)
    requires i < |bytes|
    ensures HexValue(Encode(bytes)[2 * i]) == Some(bytes[i] / 16)
    ensures HexValue(Encode(bytes)[2 * i + 1]) == Some(bytes[i] % 16)
  {
    HexSymbols(bytes[i] / 16);
    HexSymbols(bytes[i] % 16);
  }

  /** Decoding the hexadecimal text of bytes gives the bytes. */
  lemma DecodeInvertsEncode(bytes: seq<Byte>, decoded: seq<Byte>)
    ensures forall c | c in Encode(bytes) :: HexValue(c).Some?
    ensures IsDecoded(Encode(bytes), decoded) <==> decoded == bytes
  {
    hide Encode, HexValue;
    var text := Encode(bytes);
    forall i | 0 <= i < |bytes|
      ensures HexValue(text[2 * i]) == Some(bytes[i] / 16) && HexValue(text[2 * i + 1]) == Some(bytes[i] % 16)
    {
      EncodedByte(bytes, i);
    }
    forall k | 0 <= k < |text|
      ensures HexValue(text[k]).Some?
    {
      var i := k / 2;
      assert bytes[i] / 16 < 16;
      assert k == 2 * i || k == 2 * i + 1;
    }
  }
}
