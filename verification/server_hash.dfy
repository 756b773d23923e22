/** The signed hexadecimal digest that identifies a login to the session server (PlayerConnection.cpp:195-245). */
module ServerHash {
  import opened Wire
  import opened Buffers

  const HEX := "0123456789abcdef"

  /** The two's complement number that the digest's bytes spell, the most significant first. */
  function Signed(md: seq<byte>): int
    requires md != []
  {
    if md[0] >= 0x80 then BigEndian(md) - Power256(|md|) else BigEndian(md)
  }

  // ---------- the negation ----------

  /** The bytes after the loop that runs from the last byte to the first with a carry. */
  function Negated(md: seq<byte>, carry: nat): (r: seq<byte>)
    requires carry <= 1
    ensures |r| == |md|
  {
    if md == [] then []
    else
      var twocomp := 0xFF - md[|md| - 1] + carry;
      if twocomp > 0xFF then Negated(md[..|md| - 1], carry) + [twocomp - 0x100]
      else Negated(md[..|md| - 1], 0) + [twocomp]
  }

  lemma {:induction false} NegatedValue(md: seq<byte>, carry: nat)
    requires carry <= 1
    ensures BigEndian(Negated(md, carry))
         == if carry == 1 && BigEndian(md) == 0 then 0 else Power256(|md|) - 1 - BigEndian(md) + carry
  {
    if md != [] {
      var n := |md| - 1;
      var twocomp := 0xFF - md[n] + carry;
      var next := if twocomp > 0xFF then carry else 0;
      NegatedValue(md[..n], next);
      assert Negated(md, carry)[..n] == Negated(md[..n], next);
      assert Power256(|md|) == 256 * Power256(n);
      hide Power256;
    }
  }

  // ---------- the printing ----------

  /** The digits printed for the i-th byte: only the first byte loses its leading zeros. */
  function ByteDigits(i: nat, b: byte): string {
    (if i != 0 || b / 16 != 0 then [HEX[b / 16]] else "")
    + (if i != 0 || b / 16 != 0 || b % 16 != 0 then [HEX[b % 16]] else "")
  }

  function Digits(md: seq<byte>): string {
    if md == [] then "" else Digits(md[..|md| - 1]) + ByteDigits(|md| - 1, md[|md| - 1])
  }

  function Printed(md: seq<byte>): string
    requires md != []
  {
    if md[0] >= 0x80 then "-" + Digits(Negated(md, 1)) else Digits(md)
  }

  /** The value of a hexadecimal digit, 16 for anything else. */
  function DigitValue(c: char): nat {
    if '0' <= c <= '9' then c as int - '0' as int else if 'a' <= c <= 'f' then c as int - 'a' as int + 10 else 16
  }

  predicate AllHex(s: string) {
    forall c | c in s :: DigitValue(c) < 16
  }

  function HexValue(s: string): nat {
    if s == "" then 0 else 16 * HexValue(s[..|s| - 1]) + DigitValue(s[|s| - 1])
  }

  /** The number that a text with an optional minus sign denotes. */
  function Denoted(s: string): int {
    if s != "" && s[0] == '-' then 0 - HexValue(s[1..]) else HexValue(s)
  }

  lemma HexDigit(d: nat)
    requires d < 16
    ensures DigitValue(HEX[d]) == d
  {
    assert HEX[0] == '0' && HEX[1] == '1' && HEX[2] == '2' && HEX[3] == '3' && HEX[4] == '4' && HEX[5] == '5';
    assert HEX[6] == '6' && HEX[7] == '7' && HEX[8] == '8' && HEX[9] == '9' && HEX[10] == 'a' && HEX[11] == 'b';
    assert HEX[12] == 'c' && HEX[13] == 'd' && HEX[14] == 'e' && HEX[15] == 'f';
  }

  lemma HexValueSnoc(s: string, c: char)
    ensures HexValue(s + [c]) == 16 * HexValue(s) + DigitValue(c)
  {
    assert (s + [c])[..|s|] == s;
  }

  lemma {:induction false} DigitsValue(md: seq<byte>)
    ensures HexValue(Digits(md)) == BigEndian(md) && AllHex(Digits(md))
  {
    if md != [] {
      var n := |md| - 1;
      DigitsValue(md[..n]);
      ByteDigitsValue(Digits(md[..n]), n, md[n]);
    }
  }

  /** The digits of one byte: left-out zeros only ever stand at the front. */
  lemma ByteDigitsValue(s: string, i: nat, b: byte)
    requires i == 0 ==> s == ""
    requires AllHex(s)
    ensures HexValue(s + ByteDigits(i, b)) == 256 * HexValue(s) + b && AllHex(s + ByteDigits(i, b))
  {
    hide HexValue, DigitValue;
    var (high, low) := (HEX[b / 16], HEX[b % 16]);
    HexDigit(b / 16);
    HexDigit(b % 16);
    NoDigits();
    HexValueSnoc(s, high);
    HexValueSnoc(s + [high], low);
    HexValueSnoc(s, low);
    if i != 0 || b / 16 != 0 {
      assert s + ByteDigits(i, b) == s + [high] + [low];
    } else if b != 0 {
      assert s + ByteDigits(i, b) == s + [low];
    } else {
      assert s + ByteDigits(i, b) == s;
    }
  }

  lemma NoDigits()
    ensures HexValue("") == 0
  {
  }

  /** The text denotes exactly the digest read as a signed number. */
  lemma PrintedDenotesSigned(md: seq<byte>)
    requires md != []
    ensures Denoted(Printed(md)) == Signed(md)
  {
    NegatedValue(md, 1);
    DigitsValue(md);
    DigitsValue(Negated(md, 1));
    if md[0] >= 0x80 {
      FirstByteCounts(md);
      assert Printed(md)[1..] == Digits(Negated(md, 1));
    } else if Digits(md) != "" {
      assert Digits(md)[0] in Digits(md);
    }
  }

  lemma {:induction false} FirstByteCounts(md: seq<byte>)
    requires md != []
    ensures BigEndian(md) == 0 ==> md[0] == 0
  {
    if |md| > 1 { FirstByteCounts(md[..|md| - 1]); }
  }

  /** No leading zero. */
  predicate Canonical(digits: string) {
    digits != "" && digits[0] != '0'
  }

  lemma {:induction false} DigitsStart(md: seq<byte>)
    requires |md| >= 2
    ensures |Digits(md)| >= 2
    ensures Digits(md)[0] == if md[0] >= 16 then HEX[md[0] / 16] else if md[0] > 0 then HEX[md[0]] else HEX[md[1] / 16]
  {
    var n := |md| - 1;
    if n == 1 {
      assert md[..1] == [md[0]];
      assert md[..1][..0] == [];
      assert Digits(md[..1]) == ByteDigits(0, md[0]);
    } else {
      DigitsStart(md[..n]);
    }
  }

  /** The absolute value of the digest. */
  function Magnitude(md: seq<byte>): nat
    requires md != []
  {
    BigEndianBounds(md);
    if Signed(md) < 0 then -Signed(md) else Signed(md)
  }

  lemma TopDigits(m: seq<byte>)
    requires |m| >= 2
    ensures m[0] != 0 || m[1] >= 16 <==> BigEndian(m) >= 16 * Power256(|m| - 2)
  {
    var (head, tail) := (m[..2], m[2..]);
    assert m == head + tail;
    BigEndianConcat(head, tail);
    BigEndianOfTwo(head);
    BigEndianBounds(tail);
    TopOf(m[0] as int * 0x100 + m[1], Power256(|m| - 2), BigEndian(tail));
  }

  lemma TopOf(x: nat, p: nat, r: nat)
    requires r < p
    ensures x * p + r >= 16 * p <==> x >= 16
  {
    if x >= 16 {
      assert x * p >= 16 * p;
    } else {
      assert (x + 1) * p <= 16 * p;
    }
  }

  /** The bytes that are printed after the sign. */
  function Absolute(md: seq<byte>): (m: seq<byte>)
    requires md != []
    ensures |m| == |md|
  {
    if md[0] >= 0x80 then Negated(md, 1) else md
  }

  function WithoutSign(s: string): string {
    if s != "" && s[0] == '-' then s[1..] else s
  }

  lemma PrintedDigits(md: seq<byte>)
    requires md != []
    ensures WithoutSign(Printed(md)) == Digits(Absolute(md))
  {
    DigitsValue(md);
    if md[0] < 0x80 && Digits(md) != "" {
      assert Digits(md)[0] in Digits(md);
    }
  }

  /**
   The digits have no leading zero exactly if the digest is large enough: of n bytes the first one and
   a half may not all be zero in its absolute value.
   */
  lemma PrintedCanonical(md: seq<byte>)
    requires |md| >= 2
    ensures Canonical(WithoutSign(Printed(md))) <==> Magnitude(md) >= 16 * Power256(|md| - 2)
  {
    hide *;
    PrintedDigits(md);
    MagnitudeIsAbsolute(md);
    TopDigits(Absolute(md));
    CanonicalDigits(Absolute(md));
  }

  lemma MagnitudeIsAbsolute(md: seq<byte>)
    requires md != []
    ensures Magnitude(md) == BigEndian(Absolute(md))
  {
    NegatedValue(md, 1);
    BigEndianBounds(md);
    FirstByteCounts(md);
  }

  lemma CanonicalDigits(m: seq<byte>)
    requires |m| >= 2
    ensures Canonical(Digits(m)) <==> m[0] != 0 || m[1] >= 16
  {
    hide Digits;
    DigitsStart(m);
    HexDigit(m[0] / 16);
    if m[0] < 16 { HexDigit(m[0]); }
    HexDigit(m[1] / 16);
    assert DigitValue('0') == 0;
  }

  /** The digest FF FF of two bytes is -1 and printed with a zero. */
  lemma MinusOneIsPadded()
    ensures Printed([0xFF, 0xFF]) == "-01"
  {
    var md: seq<byte> := [0xFF, 0xFF];
    assert md[..1] == [0xFF] && md[..1][..0] == [];
    assert Negated(md[..1], 0) == [0];
    assert Negated(md, 1) == [0, 1];
    var one: seq<byte> := [0, 1];
    assert one[..1] == [0] && one[..1][..0] == [];
    assert Digits(one[..1]) == "" && Digits(one) == ByteDigits(1, 1);
    assert HEX[0] == '0' && HEX[1] == '1';
  }

  // ---------- the two loops ----------

  /** The first loop: the two's complement of the digest, in place. */
  method Negate(md: array<byte>)
    modifies md
    ensures md[..] == Negated(old(md[..]), 1)
    ensures old(BigEndian(md[..])) > 0 ==> BigEndian(md[..]) == Power256(md.Length) - old(BigEndian(md[..]))
  {
    NegatedValue(md[..], 1);
    hide *;
    NegateBytes(md);
  }

  method NegateBytes(md: array<byte>)
    modifies md
    ensures md[..] == Negated(old(md[..]), 1)
  {
    ghost var digest := md[..];
    hide *;
    var carry: nat := 1;
    var i := md.Length;
    ghost var done: seq<byte> := [];
    assert digest[..i] == digest;
    while i > 0
      invariant 0 <= i <= md.Length && carry <= 1
      invariant md[..i] == digest[..i] && md[i..] == done
      invariant Negated(digest, 1) == Negated(digest[..i], carry) + done
    {
      i := i - 1;
      NegatedStep(digest, i, carry, done);
      assert md[i] == digest[i] by {
        assert md[..i + 1][i] == digest[..i + 1][i];
      }
      var twocomp := 0xFF - md[i] + carry;
      if twocomp >= 0x100 {
        twocomp := twocomp - 0x100;
      } else {
        carry := 0;
      }
      assert md[..i] == md[..i + 1][..i];
      md[i] := twocomp;
      done := [twocomp] + done;
    }
    assert digest[..0] == [] && md[0..] == md[..];
    NegatedOfNothing(carry);
  }

  lemma NegatedStep(digest: seq<byte>, i: nat, carry: nat, tail: seq<byte>)
    requires i < |digest| && carry <= 1
    ensures var twocomp := 0xFF - digest[i] + carry;
            Negated(digest[..i + 1], carry) + tail ==
              if twocomp > 0xFF then Negated(digest[..i], carry) + ([twocomp - 0x100] + tail)
              else Negated(digest[..i], 0) + ([twocomp] + tail)
  {
    assert digest[..i + 1][..i] == digest[..i];
  }

  lemma NegatedOfNothing(carry: nat)
    requires carry <= 1
    ensures Negated([], carry) == []
  {
  }

  /** The second loop: appends the digits to the sign. */
  method AppendDigits(sign: string, md: array<byte>) returns (out: string)
    ensures out == sign + Digits(md[..])
  {
    out := sign;
    var i := 0;
    while i < md.Length
      invariant 0 <= i <= md.Length
      invariant out == sign + Digits(md[..i])
    {
      assert md[..i + 1][..i] == md[..i];
      if i != 0 || md[i] / 16 != 0 {
        out := out + [HEX[md[i] / 16]];
      }
      if i != 0 || md[i] / 16 != 0 || md[i] % 16 != 0 {
        out := out + [HEX[md[i] % 16]];
      }
      i := i + 1;
    }
    assert md[..i] == md[..];
  }

  /** The end of `generateServerHash`: `md` holds the SHA-1 digest, and afterwards its absolute value. */
  method Print(md: array<byte>) returns (out: string)
    requires md.Length > 0
    modifies md
    ensures out == Printed(old(md[..]))
    ensures Denoted(out) == Signed(old(md[..]))
    ensures md[..] == if old(md[0]) >= 0x80 then Negated(old(md[..]), 1) else old(md[..])
  {
    PrintedDenotesSigned(md[..]);
    out := "";
    if md[0] >= 0x80 {
      out := "-";
      Negate(md);
    }
    out := AppendDigits(out, md);
  }
}
