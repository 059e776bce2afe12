/** The Caesar cipher of sys_encr and sys_decr (kernel/sysfile.c:485-487, 538-540): `char` is signed
    and `%` truncates toward zero. */
module Cipher {
  import opened Blocks

  // C's a % 128 on int.
  function CRem(a: int): (r: int)
    ensures -128 < r < 128 && (a - r) % 128 == 0 && (a >= 0 ==> r >= 0) && (a <= 0 ==> r <= 0)
  {
    if a >= 0 then a % 128 else -((-a) % 128)
  }

  // The value of a byte held in a char.
  function Signed(x: Byte): int {
    if x < 128 then x else x - 256
  }

  // The byte that remains when an int is stored in a char.
  function ToByte(v: int): (x: Byte) {
    v % 256
  }

  function Encrypt(x: Byte, key: int): Byte {
    ToByte(CRem(Signed(x) + key))
  }

  function Decrypt(x: Byte, key: int): Byte {
    ToByte(CRem(Signed(x) - key + 128))
  }

  function EncryptAll(s: seq<Byte>, key: int): (r: seq<Byte>)
    ensures |r| == |s| && forall k :: 0 <= k < |s| ==> r[k] == Encrypt(s[k], key)
  {
    seq(|s|, k requires 0 <= k < |s| => Encrypt(s[k], key))
  }

  function DecryptAll(s: seq<Byte>, key: int): (r: seq<Byte>)
    ensures |r| == |s| && forall k :: 0 <= k < |s| ==> r[k] == Decrypt(s[k], key)
  {
    seq(|s|, k requires 0 <= k < |s| => Decrypt(s[k], key))
  }

  lemma StoredIsRead(v: int)
    requires -128 < v < 128
    ensures Signed(ToByte(v)) == v
  {
  }

  lemma CRemUnique(a: int, v: int)
    requires 0 <= a && 0 <= v < 128 && (a - v) % 128 == 0
    ensures CRem(a) == v
  {
  }

  // Decrypting an encrypted byte, without the char conversions.
  lemma RoundTripValue(x: Byte, key: int)
    ensures var e := CRem(Signed(x) + key);
            Signed(Encrypt(x, key)) == e && Decrypt(Encrypt(x, key), key) == ToByte(CRem(e - key + 128))
  {
    StoredIsRead(CRem(Signed(x) + key));
  }

  lemma SumOfMultiples(u: int, v: int)
    requires u % 128 == 0 && u + v == 128
    ensures v % 128 == 0
  {
  }

  // A 7-bit byte survives whenever the key is at most 128, negative keys included.
  lemma RoundTrip(x: Byte, key: int)
    requires x < 128 && key <= 128
    ensures Decrypt(Encrypt(x, key), key) == x
  {
    hide CRem;
    var e := CRem(x + key);
    RoundTripValue(x, key);
    SumOfMultiples(x + key - e, e - key + 128 - x);
    CRemUnique(e - key + 128, x);
  }

  lemma CongruentRest(v: int, x: int)
    requires x == v % 128
    ensures (x - v) % 128 == 0
  {
  }

  lemma NegativeRest(d: int)
    requires d < 0 && d % 128 != 0
    ensures CRem(d) < 0
  {
  }

  // With a key above 128 some 7-bit byte does not survive: the one that encrypts to 0, or to 1.
  lemma LargeKeyLosesBytes(key: int)
    requires key > 128
    ensures exists x: Byte :: x < 128 && Decrypt(Encrypt(x, key), key) != x
  {
    var target := if key % 128 == 0 then 1 else 0;
    var x: Byte := (target - key) % 128;
    hide CRem;
    CongruentRest(target - key, x);
    CRemUnique(x + key, target);
    RoundTripValue(x, key);
    NegativeRest(target - key + 128);
  }

  // The round trip holds for all 7-bit bytes exactly when the key is at most 128.
  lemma RoundTripExactly(key: int)
    ensures (forall x: Byte :: x < 128 ==> Decrypt(Encrypt(x, key), key) == x) <==> key <= 128
  {
    if key <= 128 {
      forall x: Byte | x < 128
        ensures Decrypt(Encrypt(x, key), key) == x
      {
        RoundTrip(x, key);
      }
    } else {
      LargeKeyLosesBytes(key);
    }
  }

  // With a key in 0..128 a byte with the top bit set never survives.
  lemma HighByteIsLost(x: Byte, key: int)
    requires 128 <= x && 0 <= key <= 128
    ensures Decrypt(Encrypt(x, key), key) != x
  {
    RoundTripValue(x, key);
    var e := CRem(Signed(x) + key);
    assert e - key + 128 >= 0;
    assert 0 <= CRem(e - key + 128) < 128;
  }

  // A whole file survives exactly when all its bytes are 7-bit.
  lemma FileRoundTrip(s: seq<Byte>, key: int)
    requires 0 <= key <= 128
    ensures DecryptAll(EncryptAll(s, key), key) == s <==> forall k :: 0 <= k < |s| ==> s[k] < 128
  {
    var r := DecryptAll(EncryptAll(s, key), key);
    forall k | 0 <= k < |s|
      ensures r[k] == s[k] <==> s[k] < 128
    {
      if s[k] < 128 {
        RoundTrip(s[k], key);
      } else {
        HighByteIsLost(s[k], key);
      }
    }
  }
}
