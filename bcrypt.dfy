/** bcrypt, as the services use it: `hash(plain, 10)` and `compare(plain, hash)`.
    The library is not modelled; it is a pair of functions handed to the services,
    and the properties the services rely on are the laws of `Sound`. What bcrypt
    reads of its input is modelled exactly: `Key`, the 72 bytes its key schedule
    consumes, so that two inputs agreeing on those bytes are indistinguishable. */
module Bcrypt {

  type Byte = b: int | 0 <= b < 256

  /** The UTF-8 encoding of one Unicode scalar value. */
  function CharBytes(c: char): (bs: seq<Byte>)
    ensures c as int < 0x80 ==> bs == [c as int]
    ensures 1 <= |bs| <= 4
  {
    var n := c as int;
    if n < 0x80 then [n]
    else if n < 0x800 then [0xC0 + n / 0x40, 0x80 + n % 0x40]
    else if n < 0x1_0000 then [0xE0 + n / 0x1000, 0x80 + (n / 0x40) % 0x40, 0x80 + n % 0x40]
    else [0xF0 + n / 0x4_0000, 0x80 + (n / 0x1000) % 0x40, 0x80 + (n / 0x40) % 0x40, 0x80 + n % 0x40]
  }

  /** The UTF-8 encoding of a string, which is what bcryptjs hashes. */
  function Utf8(s: string): seq<Byte>
  {
    if s == [] then [] else CharBytes(s[0]) + Utf8(s[1..])
  }

  /** `bs` repeated until `n` bytes are taken. */
  function Cycle(bs: seq<Byte>, n: nat): (r: seq<Byte>)
    requires bs != []
    ensures |r| == n
    decreases n
  {
    if n <= |bs| then bs[..n] else bs + Cycle(bs, n - |bs|)
  }

  /** The bytes bcrypt's key schedule reads: the UTF-8 bytes followed by a NUL,
      repeated cyclically, cut at 72 bytes. Everything after the 72nd byte of the
      encoding is ignored. */
  function Key(s: string): (k: seq<Byte>)
    ensures |k| == 72
  {
    Cycle(Utf8(s) + [0], 72)
  }

  /** Below the length of the encoding, the key is the encoding itself. */
  lemma KeyPrefix(s: string, i: int)
    requires 0 <= i < 72 && i < |Utf8(s)|
    ensures Key(s)[i] == Utf8(s)[i]
  {
    var bs := Utf8(s) + [0];
    assert bs[i] == Utf8(s)[i];
  }

  predicate IsAscii(s: string)
  {
    forall i :: 0 <= i < |s| ==> 0 < s[i] as int < 0x80
  }

  lemma {:induction false} AsciiUtf8(s: string)
    requires IsAscii(s)
    ensures |Utf8(s)| == |s|
    ensures forall i :: 0 <= i < |s| ==> Utf8(s)[i] == s[i] as int
  {
    if s != [] {
      AsciiUtf8(s[1..]);
    }
  }

  /** For a short ASCII string without NUL, the key spells the string itself, so
      two such strings of one length with the same key are equal. */
  lemma KeyDeterminesShortAscii(a: string, b: string)
    requires IsAscii(a) && IsAscii(b) && |a| == |b| <= 72
    requires Key(a) == Key(b)
    ensures a == b
  {
    AsciiUtf8(a);
    AsciiUtf8(b);
    forall i | 0 <= i < |a| ensures a[i] == b[i] {
      KeyPrefix(a, i);
      KeyPrefix(b, i);
    }
  }

  /** A string longer than 72 bytes is known to bcrypt by its first 72 bytes alone. */
  lemma LongInputTruncated(s: string, t: string)
    requires |Utf8(s)| >= 72 && |Utf8(t)| >= 72
    requires Utf8(s)[..72] == Utf8(t)[..72]
    ensures Key(s) == Key(t)
  {
    forall i | 0 <= i < 72 ensures Key(s)[i] == Key(t)[i] {
      KeyPrefix(s, i);
      KeyPrefix(t, i);
      assert Utf8(s)[..72][i] == Utf8(t)[..72][i];
    }
  }

  /** The random salt that bcrypt draws for each hash. */
  type Salt = nat

  /** `digest(plain, salt)` is the hash string bcrypt produces with that salt;
      `matches(plain, hash)` is `bcrypt.compare`. */
  datatype PasswordHasher = PasswordHasher(
    digest: (string, Salt) -> string,
    matches: (string, string) -> bool)

  /** The laws of the hasher: a hash verifies the plaintext it was made from, whatever
      the salt; a hash string is never empty (bcrypt's are 60 characters); and a hash
      that verifies one plaintext verifies exactly the plaintexts with the same key. */
  ghost predicate Sound(h: PasswordHasher)
  {
    && (forall plain, salt :: h.matches(plain, h.digest(plain, salt)))
    && (forall plain, salt :: h.digest(plain, salt) != "")
    && (forall a, b, d :: h.matches(a, d) ==> (h.matches(b, d) <==> Key(a) == Key(b)))
  }

  /** `bcrypt.hash(plain, 10)`: the salt is drawn at random, so two hashes of one
      plaintext may differ; each verifies exactly the strings whose key is that of
      the plaintext. */
  method Hash(h: PasswordHasher, plain: string) returns (d: string)
    requires Sound(h)
    ensures d != "" && h.matches(plain, d)
    ensures forall other :: h.matches(other, d) <==> Key(other) == Key(plain)
  {
    var salt: Salt :| true;
    d := h.digest(plain, salt);
  }

  function Tag(k: seq<Byte>): string
  {
    "$" + seq(|k|, i requires 0 <= i < |k| => k[i] as char)
  }

  lemma TagInjective(a: seq<Byte>, b: seq<Byte>)
    requires Tag(a) == Tag(b)
    ensures a == b
  {
    assert |a| == |Tag(a)| - 1 == |b|;
    forall i | 0 <= i < |a| ensures a[i] == b[i] {
      assert Tag(a)[i + 1] == a[i] as char;
      assert Tag(b)[i + 1] == b[i] as char;
    }
  }

  function WitnessDigest(plain: string, salt: Salt): string
  {
    Tag(Key(plain))
  }

  predicate WitnessMatches(plain: string, d: string)
  {
    d == Tag(Key(plain))
  }

  /** The laws are consistent: a hasher that obeys them exists. */
  lemma SoundHasherExists()
    ensures Sound(PasswordHasher(WitnessDigest, WitnessMatches))
  {
    var h := PasswordHasher(WitnessDigest, WitnessMatches);
    forall a, b, d | h.matches(a, d) ensures h.matches(b, d) <==> Key(a) == Key(b) {
      if h.matches(b, d) {
        TagInjective(Key(a), Key(b));
      }
    }
  }
}
