/**
 `private_key_to_WIF`: the wallet import format of a private key.
 */
module Wif {
  import opened Bitcoin
  import opened Base58

  /** The SHA-256 hash of the foreign library. */
  const SHA256: seq<Byte> -> Digest

  ghost function Checksum(bytes: seq<Byte>): seq<Byte>
  {
    SHA256(SHA256(bytes))[..4]
  }

  /** The bytes that the text encodes: a version byte, the key, and a checksum. */
  ghost function Payload(key: seq<Byte>): seq<Byte>
  {
    [0x80] + key + Checksum([0x80] + key)
  }

  /** The filter with a counter that keeps the first four bytes. */
  method FirstFour(bytes: Digest) returns (r: seq<Byte>)
    ensures r == bytes[..4]
  {
    var index := 0;
    r := [];
    for i := 0 to |bytes|
      invariant index == (if i < 4 then i else 4) && r == bytes[..index]
    {
      if index < 4 {
        index := index + 1;
        r := r + [bytes[i]];
      }
    }
  }

  /** Is `text` the base 58 text of the payload, in digits without a leading zero? */
  ghost predicate IsWif(key: seq<Byte>, text: string)
  {
    exists digits :: text == EncodeBase58(digits) && NoLeadingZero(digits) && Value(digits) == BigEndian(Payload(key))
  }

  method PrivateKeyToWif(key: seq<Byte>) returns (text: string)
    ensures IsWif(key, text)
  {
    var concat := [0x80] + key;
    var checksum := FirstFour(SHA256(SHA256(concat)));
    var payload := concat + checksum;
    var decimal := BytesToDecimal(payload);
    var digits := DecimalToBase58(decimal);
    text := EncodeBase58(digits);
    var hex := Encode(payload);
    assert hex[0] == UPPER_SYMBOLS[payload[0] / 16] == '8';
    for i := 0 to |hex|
      invariant i == 0 && text == EncodeBase58(digits)
    {
      if hex[i] == '0' {
        text := "1" + text;
      } else {
        break;
      }
    }
  }

  // ---------- The shape of the text ----------

  lemma {:induction false} PowAdd(b: nat, m: nat, n: nat)
    ensures Pow(b, m + n) == Pow(b, m) * Pow(b, n)
  {
    if m > 0 {
      PowAdd(b, m - 1, n);
      MulAssociative(b, Pow(b, m - 1), Pow(b, n));
    }
  }

  lemma MulAssociative(x: nat, y: nat, z: nat)
    ensures x * (y * z) == x * y * z
  {
  }

  lemma PowersOf58()
    ensures Pow(58, 50) == 14838830640714294999983396511843381888381117770762056659674968992599706869653743415066624
  {
    assert Pow(58, 5) == 656356768;
    PowAdd(58, 5, 5);
    PowAdd(58, 10, 10);
    PowAdd(58, 20, 20);
    PowAdd(58, 40, 10);
  }

  lemma PowersOf256()
    ensures Pow(256, 36) == 497323236409786642155382248146820840100456150797347717440463976893159497012533375533056
  {
    assert Pow(256, 4) == 4294967296;
    PowAdd(256, 4, 4);
    PowAdd(256, 8, 8);
    PowAdd(256, 16, 16);
    PowAdd(256, 32, 4);
  }

  lemma {:induction false} BigEndianBound(bytes: seq<Byte>)
    ensures BigEndian(bytes) < Pow(256, |bytes|)
  {
    if bytes != [] {
      BigEndianBound(bytes[..|bytes| - 1]);
    }
  }

  /** For a key of 32 bytes the number lies between `4 * 58^50` and `5 * 58^50`, whatever the checksum. */
  lemma PayloadBounds(payload: seq<Byte>)
    requires |payload| == 37 && payload[0] == 0x80
    ensures 4 * Pow(58, 50) <= BigEndian(payload) < 5 * Pow(58, 50)
  {
    BigEndianCons(payload);
    BigEndianBound(payload[1..]);
    PowersOf58();
    PowersOf256();
  }

  lemma ShapeOfPayload(payload: seq<Byte>, digits: seq<Digit>)
    requires |payload| == 37 && payload[0] == 0x80
    requires NoLeadingZero(digits) && Value(digits) == BigEndian(payload)
    ensures |digits| == 51 && digits[0] == 4
  {
    hide Pow, Value, BigEndian;
    PayloadBounds(payload);
    DigitsOf(digits, 4, 50);
  }

  /** The text of a 32-byte key has exactly 51 symbols, the first of which is '5'. */
  lemma WifHasFixedShape(key: seq<Byte>, text: string)
    requires |key| == 32 && IsWif(key, text)
    ensures |text| == 51 && text[0] == '5'
  {
    hide Value, BigEndian, EncodeBase58;
    var digits :| text == EncodeBase58(digits) && NoLeadingZero(digits) && Value(digits) == BigEndian(Payload(key));
    ShapeOfPayload(Payload(key), digits);
    assert BASE58_SYMBOLS[4] == '5';
  }

  /** The text of a key is unique. */
  lemma WifIsUnique(key: seq<Byte>, text: string, other: string)
    requires IsWif(key, text) && IsWif(key, other)
    ensures text == other
  {
    var x :| text == EncodeBase58(x) && NoLeadingZero(x) && Value(x) == BigEndian(Payload(key));
    var y :| other == EncodeBase58(y) && NoLeadingZero(y) && Value(y) == BigEndian(Payload(key));
    DigitsAreUnique(x, y);
  }

  lemma {:induction false} BigEndianIsInjective(x: seq<Byte>, y: seq<Byte>)
    requires |x| == |y| && BigEndian(x) == BigEndian(y)
    ensures x == y
  {
    if x != [] {
      var n := |x| - 1;
      BigEndianIsInjective(x[..n], y[..n]);
      assert x == x[..n] + [x[n]] && y == y[..n] + [y[n]];
    }
  }

  /** The text determines the key: two keys of the same length with the same text are equal. */
  lemma WifDeterminesKey(key: seq<Byte>, other: seq<Byte>, text: string)
    requires |key| == |other| && IsWif(key, text) && IsWif(other, text)
    ensures key == other
  {
    var x :| text == EncodeBase58(x) && NoLeadingZero(x) && Value(x) == BigEndian(Payload(key));
    var y :| text == EncodeBase58(y) && NoLeadingZero(y) && Value(y) == BigEndian(Payload(other));
    EncodingIsInjective(x, y);
    BigEndianIsInjective(Payload(key), Payload(other));
    assert key == Payload(key)[1..|key| + 1] && other == Payload(other)[1..|key| + 1];
  }

  /**
   Decoding the text: bytes of the right number that it encodes are the version byte, the key, and a
   checksum that is correct, the first four bytes of the double hash of what precedes it.
   */
  lemma WifDecodes(key: seq<Byte>, text: string, digits: seq<Digit>, bytes: seq<Byte>)
    requires IsWif(key, text) && |bytes| == |key| + 5
    requires text == EncodeBase58(digits) && Value(digits) == BigEndian(bytes)
    ensures var n := |key| + 1;
      bytes[0] == 0x80 && bytes[1..n] == key && bytes[n..] == SHA256(SHA256(bytes[..n]))[..4]
  {
    var x :| text == EncodeBase58(x) && NoLeadingZero(x) && Value(x) == BigEndian(Payload(key));
    EncodingIsInjective(x, digits);
    BigEndianIsInjective(Payload(key), bytes);
    assert bytes[..|key| + 1] == [0x80] + key;
  }
}
