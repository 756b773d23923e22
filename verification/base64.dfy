/** `base64_encode` and `base64_decode` (Base64Utils.cpp), section 4 of RFC 4648. */
module Base64 {
  import opened Wire

  // ---------- the alphabet ----------

  function Char(d: nat): char
    requires d < 64
  {
    if d < 26 then ('A' as int + d) as char
    else if d < 52 then ('a' as int + d - 26) as char
    else if d < 62 then ('0' as int + d - 52) as char
    else if d == 62 then '+'
    else '/'
  }

  predicate IsBase64(c: char) {
    'A' <= c <= 'Z' || 'a' <= c <= 'z' || '0' <= c <= '9' || c == '+' || c == '/'
  }

  /** `base64_chars.find(c)` in an `unsigned char`: npos becomes 255. */
  function Find(c: char): byte {
    if 'A' <= c <= 'Z' then c as int - 'A' as int
    else if 'a' <= c <= 'z' then c as int - 'a' as int + 26
    else if '0' <= c <= '9' then c as int - '0' as int + 52
    else if c == '+' then 62
    else if c == '/' then 63
    else 255
  }

  lemma FindChar(d: nat)
    requires d < 64
    ensures Find(Char(d)) == d && IsBase64(Char(d)) && Char(d) != '='
  {
  }

  // ---------- encoding ----------

  /** `char_array_4` from `char_array_3`, spelled in the alphabet. */
  function Quad(a: byte, b: byte, c: byte): (s: string)
    ensures |s| == 4
  {
    [Char(a / 4), Char(a % 4 * 16 + b / 16), Char(b % 16 * 4 + c / 64), Char(c % 64)]
  }

  function Encode(x: seq<byte>): string {
    if x == [] then ""
    else if |x| == 1 then Quad(x[0], 0, 0)[..2] + "=="
    else if |x| == 2 then Quad(x[0], x[1], 0)[..3] + "="
    else Quad(x[0], x[1], x[2]) + Encode(x[3..])
  }

  lemma {:induction false} EncodedLength(x: seq<byte>)
    ensures |Encode(x)| == (|x| + 2) / 3 * 4
  {
    if |x| >= 3 { EncodedLength(x[3..]); }
  }

  // ---------- decoding ----------

  /** `char_array_3` from `char_array_4`. */
  function Triple(s: string): (r: seq<byte>)
    requires |s| == 4
    ensures |r| == 3
  {
    var (a, b, c, d) := (Find(s[0]) as int, Find(s[1]) as int, Find(s[2]) as int, Find(s[3]) as int);
    [(a * 4 + b % 64 / 16) % 256, (b % 16 * 16 + c % 64 / 4) % 256, (c % 4 * 64 + d) % 256]
  }

  /** What the loop takes: everything before the first character outside the alphabet. */
  function Taken(s: string): (r: string)
    ensures forall c | c in r :: IsBase64(c)
  {
    if s == "" || !IsBase64(s[0]) then "" else [s[0]] + Taken(s[1..])
  }

  /** Groups of four; an incomplete last group of i characters yields i - 1 bytes. */
  function DecodeTaken(s: string): seq<byte> {
    if |s| >= 4 then Triple(s[..4]) + DecodeTaken(s[4..])
    else if |s| <= 1 then []
    else Triple(s + seq(4 - |s|, _ => '\0'))[..|s| - 1]
  }

  function Decode(s: string): seq<byte> {
    DecodeTaken(Taken(s))
  }

  /** Three bytes cut into four groups of six bits and put together again; the last group may be anything. */
  lemma GroupsOfSix(a: byte, b: byte, c: byte)
    ensures (a / 4 * 4 + (a % 4 * 16 + b / 16) % 64 / 16) % 256 == a
    ensures ((a % 4 * 16 + b / 16) % 16 * 16 + (b % 16 * 4 + c / 64) % 64 / 4) % 256 == b
    ensures ((b % 16 * 4 + c / 64) % 4 * 64 + c % 64) % 256 == c
  {
    assert (a % 4 * 16 + b / 16) / 16 == a % 4;
    assert (a % 4 * 16 + b / 16) % 16 == b / 16;
    assert (b % 16 * 4 + c / 64) / 4 == b % 16;
    assert (b % 16 * 4 + c / 64) % 4 == c / 64;
  }

  lemma TripleOfQuad(a: byte, b: byte, c: byte)
    ensures Triple(Quad(a, b, c)) == [a, b, c]
  {
    hide Find, Char;
    FindChar(a / 4);
    FindChar(a % 4 * 16 + b / 16);
    FindChar(b % 16 * 4 + c / 64);
    FindChar(c % 64);
    GroupsOfSix(a, b, c);
  }

  /** Of a group's first bytes, the k-th depends on its first k + 2 characters only. */
  lemma TripleByPrefix(s: string, t: string)
    requires |s| == |t| == 4
    ensures s[..2] == t[..2] ==> Triple(s)[0] == Triple(t)[0]
    ensures s[..3] == t[..3] ==> Triple(s)[..2] == Triple(t)[..2]
  {
    hide Find;
    assert s[..2] == t[..2] ==> s[..2][0] == t[..2][0] && s[..2][1] == t[..2][1];
    assert s[..3] == t[..3] ==> s[..3][0] == t[..3][0] && s[..3][1] == t[..3][1] && s[..3][2] == t[..3][2];
  }

  /** The filler of an incomplete group does not reach the bytes that are kept. */
  lemma FillerIsDropped(a: byte, b: byte)
    ensures Triple(Quad(a, 0, 0)[..2] + ['\0', '\0'])[..1] == [a]
    ensures Triple(Quad(a, b, 0)[..3] + ['\0'])[..2] == [a, b]
  {
    hide Triple, Quad;
    TripleOfQuad(a, 0, 0);
    TripleOfQuad(a, b, 0);
    TripleByPrefix(Quad(a, 0, 0)[..2] + ['\0', '\0'], Quad(a, 0, 0));
    TripleByPrefix(Quad(a, b, 0)[..3] + ['\0'], Quad(a, b, 0));
  }

  lemma NotBase64()
    ensures !IsBase64('=')
  {
  }

  lemma {:induction false} TakenPrefix(valid: string, rest: string)
    requires forall c | c in valid :: IsBase64(c)
    ensures Taken(valid + rest) == valid + Taken(rest)
  {
    if valid == "" {
      assert valid + rest == rest;
    } else {
      assert (valid + rest)[1..] == valid[1..] + rest;
      TakenPrefix(valid[1..], rest);
    }
  }

  lemma QuadIsBase64(a: byte, b: byte, c: byte)
    ensures forall k | k in Quad(a, b, c) :: IsBase64(k)
  {
    FindChar(a / 4);
    FindChar(a % 4 * 16 + b / 16);
    FindChar(b % 16 * 4 + c / 64);
    FindChar(c % 64);
  }

  /** Decoding gives back every byte string. */
  lemma {:induction false} DecodeEncode(x: seq<byte>)
    ensures Decode(Encode(x)) == x
  {
    hide Triple, Quad, IsBase64;
    NotBase64();
    if |x| == 1 {
      var q := Quad(x[0], 0, 0)[..2];
      QuadIsBase64(x[0], 0, 0);
      TakenPrefix(q, "==");
      FillerIsDropped(x[0], 0);
      assert Taken(q + "==") == q;
      assert seq(2, _ => '\0') == ['\0', '\0'];
    } else if |x| == 2 {
      var q := Quad(x[0], x[1], 0)[..3];
      QuadIsBase64(x[0], x[1], 0);
      TakenPrefix(q, "=");
      FillerIsDropped(x[0], x[1]);
      assert Taken(q + "=") == q;
      assert seq(1, _ => '\0') == ['\0'];
    } else if |x| >= 3 {
      var q, rest := Quad(x[0], x[1], x[2]), Encode(x[3..]);
      QuadIsBase64(x[0], x[1], x[2]);
      TakenPrefix(q, rest);
      TripleOfQuad(x[0], x[1], x[2]);
      DecodeEncode(x[3..]);
      assert (q + Taken(rest))[..4] == q && (q + Taken(rest))[4..] == Taken(rest);
      assert x == [x[0], x[1], x[2]] + x[3..];
    }
  }

  // ---------- the loops ----------

  /** One or two bytes that are left over. */
  method EncodeTail(pending: seq<byte>) returns (tail: string)
    requires 0 < |pending| < 3
    ensures tail == Encode(pending)
  {
    hide Char;
    var i := |pending|;
    var bytes3 := pending;
    var j := i;
    while j < 3
      invariant i <= j <= 3 && bytes3 == pending + seq(j - i, _ => 0)
    {
      bytes3 := bytes3 + [0];
      j := j + 1;
    }
    var quad := Quad(bytes3[0], bytes3[1], bytes3[2]);
    tail := "";
    j := 0;
    while j < i + 1
      invariant 0 <= j <= i + 1 && tail == quad[..j]
    {
      tail := tail + [quad[j]];
      j := j + 1;
    }
    while i < 3
      invariant |pending| <= i <= 3 && tail == quad[..|pending| + 1] + seq(i - |pending|, _ => '=')
    {
      tail := tail + "=";
      i := i + 1;
    }
    assert |pending| == 1 ==> seq(2, _ => '=') == "==";
    assert |pending| == 2 ==> seq(1, _ => '=') == "=";
  }

  lemma EncodeThree(ret: string, b: seq<byte>, rest: seq<byte>)
    requires |b| == 3
    ensures ret + Encode(b + rest) == ret + Quad(b[0], b[1], b[2]) + Encode(rest)
  {
    hide Quad;
    assert (b + rest)[3..] == rest;
  }

  lemma EncodeNothing()
    ensures Encode([]) == ""
  {
  }

  /** `base64_encode`. */
  method EncodeBytes(bytes: seq<byte>) returns (ret: string)
    ensures ret == Encode(bytes)
  {
    hide Quad, Encode;
    ret := "";
    var n := 0;
    var bytes3: seq<byte> := [];
    assert [] + bytes[0..] == bytes;
    while n < |bytes|
      invariant 0 <= n <= |bytes| && |bytes3| < 3
      invariant Encode(bytes) == ret + Encode(bytes3 + bytes[n..])
    {
      ghost var pending := bytes3 + bytes[n..];
      bytes3 := bytes3 + [bytes[n]];
      n := n + 1;
      assert pending == bytes3 + bytes[n..];
      if |bytes3| == 3 {
        EncodeThree(ret, bytes3, bytes[n..]);
        ret := ret + Quad(bytes3[0], bytes3[1], bytes3[2]);
        bytes3 := [];
        assert [] + bytes[n..] == bytes[n..];
      }
    }
    assert bytes3 + bytes[n..] == bytes3;
    EncodeNothing();
    if bytes3 != [] {
      var tail := EncodeTail(bytes3);
      ret := ret + tail;
    }
  }

  /** The last, incomplete group. */
  method DecodeTail(pending: string) returns (tail: seq<byte>)
    requires 0 < |pending| < 4
    ensures tail == DecodeTaken(pending)
  {
    var i := |pending|;
    var chars4 := pending;
    var j := i;
    while j < 4
      invariant i <= j <= 4 && chars4 == pending + seq(j - i, _ => '\0')
    {
      chars4 := chars4 + ['\0'];
      j := j + 1;
    }
    var triple := Triple(chars4);
    tail := [];
    j := 0;
    while j < i - 1
      invariant 0 <= j <= i - 1 && tail == triple[..j]
    {
      tail := tail + [triple[j]];
      j := j + 1;
    }
  }

  /** `base64_decode`. */
  method DecodeText(s: string) returns (ret: seq<byte>)
    ensures ret == Decode(s)
  {
    hide Triple, IsBase64;
    ret := [];
    var n := 0;
    var chars4: string := "";
    assert s[0..] == s && "" + Taken(s) == Taken(s);
    while n < |s| && s[n] != '=' && IsBase64(s[n])
      invariant 0 <= n <= |s| && |chars4| < 4
      invariant Decode(s) == ret + DecodeTaken(chars4 + Taken(s[n..]))
    {
      ghost var pending := chars4 + Taken(s[n..]);
      chars4 := chars4 + [s[n]];
      n := n + 1;
      assert s[n - 1..][1..] == s[n..];
      assert pending == chars4 + Taken(s[n..]);
      if |chars4| == 4 {
        assert pending[..4] == chars4 && pending[4..] == Taken(s[n..]);
        ret := ret + Triple(chars4);
        chars4 := "";
        assert "" + Taken(s[n..]) == Taken(s[n..]);
      }
    }
    assert Taken(s[n..]) == "" by {
      NotBase64();
    }
    assert chars4 + "" == chars4;
    if chars4 != "" {
      var tail := DecodeTail(chars4);
      ret := ret + tail;
    }
  }

  // ---------- what the groups spell ----------

  /** The 64 digits in order (section 4 of RFC 4648). */
  const ALPHABET := UPPER + LOWER + DIGITS + "+/"
  const UPPER := "ABCDEFGHIJKLMNOPQRSTUVWXYZ"
  const LOWER := "abcdefghijklmnopqrstuvwxyz"
  const DIGITS := "0123456789"

  lemma LettersInOrder(d: nat)
    requires d < 26
    ensures Char(d) == UPPER[d] && Char(d + 26) == LOWER[d]
  {
    if d < 7 {
    } else if d < 14 {
    } else if d < 20 {
    }
  }

  lemma AlphabetIs(d: nat)
    requires d < 64
    ensures |ALPHABET| == 64 && Char(d) == ALPHABET[d] && Find(ALPHABET[d]) == d
  {
    FindChar(d);
    if d < 26 {
      LettersInOrder(d);
      assert ALPHABET[d] == UPPER[d];
    } else if d < 52 {
      LettersInOrder(d - 26);
      assert ALPHABET[d] == LOWER[d - 26];
    } else if d < 62 {
      assert ALPHABET[d] == DIGITS[d - 52];
    }
  }

  lemma OnlyAlphabet(c: char)
    ensures IsBase64(c) <==> c in ALPHABET
    ensures IsBase64(c) ==> Find(c) < 64 && ALPHABET[Find(c)] == c
  {
    if IsBase64(c) {
      AlphabetIs(Find(c));
    }
    if c in ALPHABET {
      var d :| 0 <= d < |ALPHABET| && ALPHABET[d] == c;
      AlphabetIs(d);
      FindChar(d);
    }
  }

  /** The number that base-64 digits spell, the most significant one first. */
  function Spelled(s: string): nat {
    if s == "" then 0 else Spelled(s[..|s| - 1]) * 64 + Find(s[|s| - 1])
  }

  lemma SpelledFew(s: string)
    ensures |s| == 2 ==> Spelled(s) == Find(s[0]) as int * 64 + Find(s[1]) as int
    ensures |s| == 3 ==> Spelled(s) == Find(s[0]) as int * 0x1000 + Find(s[1]) as int * 64 + Find(s[2]) as int
    ensures |s| == 4 ==>
      Spelled(s) == Find(s[0]) as int * 0x4_0000 + Find(s[1]) as int * 0x1000 + Find(s[2]) as int * 64 + Find(s[3]) as int
  {
    hide Find;
    if |s| > 1 {
      var a, b := s[..|s| - 1], s[..|s| - 1][..|s| - 2];
      assert Spelled(a) == Spelled(b) * 64 + Find(a[|a| - 1]);
      if |s| > 2 {
        var c := b[..|b| - 1];
        assert Spelled(b) == Spelled(c) * 64 + Find(b[|b| - 1]);
        if |s| > 3 {
          var d := c[..|c| - 1];
          assert Spelled(c) == Spelled(d) * 64 + Find(c[|c| - 1]);
        }
      }
    }
  }

  lemma QuadDigits(a: byte, b: byte, c: byte)
    ensures var q := Quad(a, b, c);
      && Find(q[0]) == a / 4 && Find(q[1]) as int == a % 4 * 16 + b / 16
      && Find(q[2]) as int == b % 16 * 4 + c / 64 && Find(q[3]) == c % 64
  {
    hide Find, Char;
    FindChar(a / 4);
    FindChar(a % 4 * 16 + b / 16);
    FindChar(b % 16 * 4 + c / 64);
    FindChar(c % 64);
  }

  lemma QuadSpells(a: byte, b: byte, c: byte)
    ensures Spelled(Quad(a, b, c)) == BigEndian([a, b, c])
    ensures Spelled(Quad(a, b, 0)[..3]) == BigEndian([a, b]) * 4
    ensures Spelled(Quad(a, 0, 0)[..2]) == BigEndian([a]) * 16
  {
    hide *;
    QuadDigits(a, b, c);
    QuadDigits(a, b, 0);
    QuadDigits(a, 0, 0);
    BigEndianThree(a, b, c);
    SpelledFew(Quad(a, b, c));
    SpelledFew(Quad(a, b, 0)[..3]);
    SpelledFew(Quad(a, 0, 0)[..2]);
    SplitBytes(a, b, c);
  }

  lemma SplitBytes(a: int, b: int, c: int)
    ensures a / 4 * 0x4_0000 + (a % 4 * 16 + b / 16) * 0x1000 + (b % 16 * 4 + c / 64) * 64 + c % 64 == a * 0x1_0000 + b * 0x100 + c
    ensures a / 4 * 0x1000 + (a % 4 * 16 + b / 16) * 64 + b % 16 * 4 == (a * 0x100 + b) * 4
    ensures a / 4 * 64 + a % 4 * 16 == a * 16
  {
  }

  lemma BigEndianThree(a: byte, b: byte, c: byte)
    ensures BigEndian([a]) == a
    ensures BigEndian([a, b]) == a as int * 0x100 + b as int
    ensures BigEndian([a, b, c]) == a as int * 0x1_0000 + b as int * 0x100 + c as int
  {
    assert [a][..0] == [] && [a, b][..1] == [a] && [a, b, c][..2] == [a, b];
  }

  /**
   Each four characters spell the number of their three bytes. One byte left over is spelled by two
   characters and two bytes by three, with zero bits at the end, and the padding completes the four.
   */
  lemma {:induction false} EncodeSpells(x: seq<byte>, g: nat)
    requires 3 * g < |x|
    ensures |Encode(x)| == (|x| + 2) / 3 * 4
    ensures var rest, group := |x| - 3 * g, Encode(x)[4 * g..4 * g + 4];
      && (rest >= 3 ==> Spelled(group) == BigEndian(x[3 * g..3 * g + 3]) && forall c | c in group :: IsBase64(c))
      && (rest == 2 ==> Spelled(group[..3]) == BigEndian(x[3 * g..]) * 4 && group[3] == '='
                        && forall c | c in group[..3] :: IsBase64(c))
      && (rest == 1 ==> Spelled(group[..2]) == BigEndian(x[3 * g..]) * 16 && group[2..] == "=="
                        && forall c | c in group[..2] :: IsBase64(c))
    decreases g
  {
    EncodedLength(x);
    if g == 0 {
      FirstGroup(x);
    } else {
      EncodeSpells(x[3..], g - 1);
      LaterGroup(x, g);
      hide Encode, Spelled, BigEndian, IsBase64;
    }
  }

  lemma LaterGroup(x: seq<byte>, g: nat)
    requires g > 0 && 3 * g < |x| && |Encode(x)| == (|x| + 2) / 3 * 4 && |Encode(x[3..])| == (|x| - 1) / 3 * 4
    ensures Encode(x)[4 * g..4 * g + 4] == Encode(x[3..])[4 * (g - 1)..4 * (g - 1) + 4]
    ensures x[3 * g..] == x[3..][3 * (g - 1)..]
    ensures |x| >= 3 * g + 3 ==> x[3 * g..3 * g + 3] == x[3..][3 * (g - 1)..3 * (g - 1) + 3]
  {
    hide Quad;
    var q := Quad(x[0], x[1], x[2]);
    assert Encode(x) == q + Encode(x[3..]);
  }

  lemma FirstGroup(x: seq<byte>)
    requires x != []
    ensures |Encode(x)| >= 4
    ensures var group := Encode(x)[..4];
      && (|x| >= 3 ==> Spelled(group) == BigEndian(x[..3]) && forall c | c in group :: IsBase64(c))
      && (|x| == 2 ==> Spelled(group[..3]) == BigEndian(x) * 4 && group[3] == '=' && forall c | c in group[..3] :: IsBase64(c))
      && (|x| == 1 ==> Spelled(group[..2]) == BigEndian(x) * 16 && group[2..] == "==" && forall c | c in group[..2] :: IsBase64(c))
  {
    hide Quad, Spelled, BigEndian, IsBase64;
    if |x| >= 3 {
      QuadSpells(x[0], x[1], x[2]);
      QuadIsBase64(x[0], x[1], x[2]);
      assert Encode(x)[..4] == Quad(x[0], x[1], x[2]) && x[..3] == [x[0], x[1], x[2]];
    } else if |x| == 2 {
      var q := Quad(x[0], x[1], 0);
      QuadSpells(x[0], x[1], 0);
      QuadIsBase64(x[0], x[1], 0);
      assert x == [x[0], x[1]] && Encode(x)[..4] == q[..3] + "=" && (q[..3] + "=")[..3] == q[..3];
    } else {
      var q := Quad(x[0], 0, 0);
      QuadSpells(x[0], 0, 0);
      QuadIsBase64(x[0], 0, 0);
      assert x == [x[0]] && Encode(x)[..4] == q[..2] + "==" && (q[..2] + "==")[..2] == q[..2];
    }
  }

  lemma TripleIs(s: string)
    requires |s| == 4
    ensures var (a, b, c, d) := (Find(s[0]) as int, Find(s[1]) as int, Find(s[2]) as int, Find(s[3]) as int);
      Triple(s) == [(a * 4 + b % 64 / 16) % 256, (b % 16 * 16 + c % 64 / 4) % 256, (c % 4 * 64 + d) % 256]
  {
    hide Find;
  }

  lemma DigitsFit(s: string)
    requires forall c | c in s :: IsBase64(c)
    ensures forall k | 0 <= k < |s| :: Find(s[k]) < 64
  {
    hide *;
    forall k | 0 <= k < |s| ensures Find(s[k]) < 64 { OnlyAlphabet(s[k]); }
  }

  /** Four digits are taken apart into the three bytes of their number. */
  lemma TripleSpells(s: string)
    requires |s| == 4 && forall c | c in s :: IsBase64(c)
    ensures BigEndian(Triple(s)) == Spelled(s)
  {
    hide *;
    DigitsFit(s);
    TripleIs(s);
    var (a, b, c, d) := (Find(s[0]) as int, Find(s[1]) as int, Find(s[2]) as int, Find(s[3]) as int);
    BigEndianThree((a * 4 + b % 64 / 16) % 256, (b % 16 * 16 + c % 64 / 4) % 256, (c % 4 * 64 + d) % 256);
    SpelledFew(s);
    JoinDigits(a, b, c, d);
  }

  lemma JoinDigits(a: nat, b: nat, c: nat, d: nat)
    requires a < 64 && b < 64 && c < 64 && d < 64
    ensures (a * 4 + b % 64 / 16) % 256 * 0x1_0000 + (b % 16 * 16 + c % 64 / 4) % 256 * 0x100 + (c % 4 * 64 + d) % 256
         == a * 0x4_0000 + b * 0x1000 + c * 64 + d
    ensures (a * 4 + b % 64 / 16) % 256 == (a * 64 + b) / 16
    ensures (a * 4 + b % 64 / 16) % 256 * 0x100 + (b % 16 * 16 + c % 64 / 4) % 256 == (a * 0x1000 + b * 64 + c) / 4
  {
    var (b1, b0, c1, c0) := (b / 16, b % 16, c / 4, c % 4);
    assert b == b1 * 16 + b0 && c == c1 * 4 + c0 && b % 64 == b && c % 64 == c;
    JoinParts(a, b1, b0, c1, c0, d);
  }

  lemma JoinParts(a: nat, b1: nat, b0: nat, c1: nat, c0: nat, d: nat)
    requires a < 64 && b1 < 4 && b0 < 16 && c1 < 16 && c0 < 4 && d < 64
    ensures (a * 4 + b1) % 256 == a * 4 + b1 && (b0 * 16 + c1) % 256 == b0 * 16 + c1 && (c0 * 64 + d) % 256 == c0 * 64 + d
    ensures (a * 64 + (b1 * 16 + b0)) / 16 == a * 4 + b1
    ensures (a * 0x1000 + (b1 * 16 + b0) * 64 + (c1 * 4 + c0)) / 4 == (a * 4 + b1) * 0x100 + (b0 * 16 + c1)
  {
  }

  /** What is left over: two digits give one byte and three give two, whatever their last bits are. */
  lemma TailSpells(s: string)
    requires 2 <= |s| <= 3 && forall c | c in s :: IsBase64(c)
    ensures |DecodeTaken(s)| == |s| - 1
    ensures BigEndian(DecodeTaken(s)) == if |s| == 2 then Spelled(s) / 16 else Spelled(s) / 4
  {
    TailIs(s);
    hide *;
    var t := s + seq(4 - |s|, _ => '\0');
    DigitsFit(s);
    TripleIs(t);
    var (a, b, c, d) := (Find(t[0]) as int, Find(t[1]) as int, Find(t[2]) as int, Find(t[3]) as int);
    assert t[0] == s[0] && t[1] == s[1] && (|s| == 3 ==> t[2] == s[2]);
    BigEndianThree((a * 4 + b % 64 / 16) % 256, (b % 16 * 16 + c % 64 / 4) % 256, (c % 4 * 64 + d) % 256);
    SpelledFew(s);
    if |s| == 2 {
      JoinDigits(a, b, 0, 0);
      assert Triple(t)[..1] == [(a * 4 + b % 64 / 16) % 256];
    } else {
      JoinDigits(a, b, c, 0);
      assert Triple(t)[..2] == [(a * 4 + b % 64 / 16) % 256, (b % 16 * 16 + c % 64 / 4) % 256];
    }
  }

  lemma TailIs(s: string)
    requires 2 <= |s| <= 3
    ensures DecodeTaken(s) == Triple(s + seq(4 - |s|, _ => '\0'))[..|s| - 1]
  {
    hide Triple;
  }

  /**
   Decoding a text takes its digits up to the first other character; every four of them give the three
   bytes of their number, one digit left over gives nothing.
   */
  lemma {:induction false} DecodeSpells(digits: string, rest: string, g: nat)
    requires forall c | c in digits :: IsBase64(c)
    requires (rest != "" ==> !IsBase64(rest[0])) && 4 * g <= |digits|
    ensures var r, left := Decode(digits + rest), |digits| - 4 * g;
      && |r| == |digits| * 3 / 4 && 3 * g <= |r|
      && (left >= 4 ==> BigEndian(r[3 * g..3 * g + 3]) == Spelled(digits[4 * g..4 * g + 4]))
      && (left == 3 ==> BigEndian(r[3 * g..]) == Spelled(digits[4 * g..]) / 4)
      && (left == 2 ==> BigEndian(r[3 * g..]) == Spelled(digits[4 * g..]) / 16)
      && (left < 2 ==> r[3 * g..] == [])
  {
    TakenPrefix(digits, rest);
    assert digits + "" == digits;
    assert Taken(rest) == "";
    DecodeGroups(digits, g);
    hide *;
  }

  lemma DecodeParts(digits: string)
    ensures |digits| >= 4 ==> DecodeTaken(digits) == Triple(digits[..4]) + DecodeTaken(digits[4..])
    ensures |digits| < 2 ==> DecodeTaken(digits) == []
  {
    hide Triple;
  }

  lemma LaterBytes(r: seq<byte>, first: seq<byte>, others: seq<byte>, digits: string, g: nat)
    requires r == first + others && |first| == 3 && g > 0 && 4 * g <= |digits| && |others| == (|digits| - 4) * 3 / 4
    ensures |r| == |digits| * 3 / 4 && 3 * g <= |r|
    ensures r[3 * g..] == others[3 * (g - 1)..] && digits[4 * g..] == digits[4..][4 * (g - 1)..]
    ensures |digits| - 4 * g >= 4 ==>
      && r[3 * g..3 * g + 3] == others[3 * (g - 1)..3 * (g - 1) + 3]
      && digits[4 * g..4 * g + 4] == digits[4..][4 * (g - 1)..4 * (g - 1) + 4]
  {
  }

  lemma {:induction false} DecodeGroups(digits: string, g: nat)
    requires (forall c | c in digits :: IsBase64(c)) && 4 * g <= |digits|
    ensures var r, left := DecodeTaken(digits), |digits| - 4 * g;
      && |r| == |digits| * 3 / 4 && 3 * g <= |r|
      && (left >= 4 ==> BigEndian(r[3 * g..3 * g + 3]) == Spelled(digits[4 * g..4 * g + 4]))
      && (left == 3 ==> BigEndian(r[3 * g..]) == Spelled(digits[4 * g..]) / 4)
      && (left == 2 ==> BigEndian(r[3 * g..]) == Spelled(digits[4 * g..]) / 16)
      && (left < 2 ==> r[3 * g..] == [])
    decreases |digits|
  {
    hide *;
    DecodeParts(digits);
    var r := DecodeTaken(digits);
    if |digits| >= 4 {
      var first, others := digits[..4], digits[4..];
      TripleSpells(first);
      DecodeGroups(others, if g > 0 then g - 1 else 0);
      if g == 0 {
        assert r[..3] == Triple(first);
      } else {
        LaterBytes(r, Triple(first), DecodeTaken(others), digits, g);
      }
    } else if |digits| >= 2 {
      TailSpells(digits);
      assert digits[0..] == digits && r[0..] == r;
    }
  }
}
