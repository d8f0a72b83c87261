/** Python's `str.encode()`: UTF-8, one to four bytes per code point. */
module Utf8 {
  import opened Common

  /** The UTF-8 encoding of one Unicode scalar value. */
  function EncodeChar(c: char): (r: seq<byte>)
    ensures 1 <= |r| <= 4
    ensures |r| == 1 <==> (c as int) < 0x80
    ensures |r| == 1 ==> r[0] as int == c as int
    ensures (c as int) >= 0x80 ==> forall i :: 0 <= i < |r| ==> r[i] >= 0x80
  {
    var n := c as int;
    if n < 0x80 then [n as byte]
    else if n < 0x800 then [(0xC0 + n / 0x40) as byte, (0x80 + n % 0x40) as byte]
    else if n < 0x10000 then
      [(0xE0 + n / 0x1000) as byte, (0x80 + (n / 0x40) % 0x40) as byte, (0x80 + n % 0x40) as byte]
    else
      [(0xF0 + n / 0x40000) as byte, (0x80 + (n / 0x1000) % 0x40) as byte,
       (0x80 + (n / 0x40) % 0x40) as byte, (0x80 + n % 0x40) as byte]
  }

  /** The UTF-8 encoding of a string. */
  function Enc(s: string): seq<byte> {
    if s == [] then [] else EncodeChar(s[0]) + Enc(s[1..])
  }

  /** Encoding distributes over concatenation. */
  lemma {:induction false} EncAppend(a: string, b: string)
    ensures Enc(a + b) == Enc(a) + Enc(b)
    decreases |a|
  {
    if a == [] {
      assert a + b == b;
    } else {
      assert (a + b)[1..] == a[1..] + b;
      EncAppend(a[1..], b);
    }
  }

  predicate IsAscii(s: string) {
    forall i :: 0 <= i < |s| ==> (s[i] as int) < 0x80
  }

  /** An ASCII string encodes to one byte per character, each equal to its code. */
  lemma {:induction false} EncAscii(s: string)
    requires IsAscii(s)
    ensures |Enc(s)| == |s|
    ensures forall i :: 0 <= i < |s| ==> Enc(s)[i] as int == s[i] as int
    decreases |s|
  {
    if s != [] {
      assert IsAscii(s[1..]) by {
        forall i | 0 <= i < |s[1..]| ensures (s[1..][i] as int) < 0x80 {
          assert s[1..][i] == s[i + 1];
        }
      }
      EncAscii(s[1..]);
      assert Enc(s) == [EncodeChar(s[0])[0]] + Enc(s[1..]);
      forall i | 0 <= i < |s| ensures Enc(s)[i] as int == s[i] as int {
        if i > 0 {
          assert Enc(s)[i] == Enc(s[1..])[i - 1];
          assert s[1..][i - 1] == s[i];
        }
      }
    }
  }
}
