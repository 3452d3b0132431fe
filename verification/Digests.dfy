/** SHA-256 as an unknown function. A byte string is a `string` whose characters are below 256, and
    UTF-8 text stands for its own bytes. No theorem assumes that no two texts collide: each names the
    finite set of texts it hashes and asks only that those do not. */
module Digests {
  import opened Text

  type Sha = string -> string

  predicate IsBytes(s: string) { forall i :: 0 <= i < |s| ==> s[i] as int < 256 }

  /** Every digest is 32 bytes long. */
  ghost predicate Sha256Like(sha: Sha) { forall x :: |sha(x)| == 32 && IsBytes(sha(x)) }

  ghost predicate CollisionFree(sha: Sha, texts: set<string>) {
    forall x, y :: x in texts && y in texts && sha(x) == sha(y) ==> x == y
  }

  /** Lowercase hexadecimal text of a byte string. */
  function Hex(s: string): (r: string)
    requires IsBytes(s)
    ensures |r| == 2 * |s|
  {
    if |s| == 0 then "" else [HexDigit(s[0] as int / 16), HexDigit(s[0] as int % 16)] + Hex(s[1..])
  }

  lemma {:induction false} HexIsLower(s: string)
    requires IsBytes(s)
    ensures forall i :: 0 <= i < |Hex(s)| ==> '0' <= Hex(s)[i] <= '9' || 'a' <= Hex(s)[i] <= 'f'
  {
    if |s| > 0 {
      HexIsLower(s[1..]);
      forall i | 0 <= i < |Hex(s)| ensures '0' <= Hex(s)[i] <= '9' || 'a' <= Hex(s)[i] <= 'f' {
        if i >= 2 { assert Hex(s)[i] == Hex(s[1..])[i - 2]; }
      }
    }
  }

  lemma {:induction false} HexInjective(a: string, b: string)
    requires IsBytes(a) && IsBytes(b) && Hex(a) == Hex(b)
    ensures a == b
  {
    if |a| > 0 {
      var ha, hb := Hex(a), Hex(b);
      var x, y := a[0] as int, b[0] as int;
      assert ha[0] == HexDigit(x / 16) && hb[0] == HexDigit(y / 16);
      assert ha[1] == HexDigit(x % 16) && hb[1] == HexDigit(y % 16);
      assert x / 16 == y / 16 && x % 16 == y % 16;
      assert a[0] == b[0];
      assert ha[2..] == Hex(a[1..]) && hb[2..] == Hex(b[1..]);
      HexInjective(a[1..], b[1..]);
      assert a == [a[0]] + a[1..] && b == [b[0]] + b[1..];
    }
  }

  /** What a hexadecimal digit counts. */
  function Nibble(c: char): int { if '0' <= c <= '9' then c as int - '0' as int else c as int - 'a' as int + 10 }

  /** Each byte is written as two digits, the higher half first. */
  lemma {:induction false} HexDigitsCount(s: string, i: nat)
    requires IsBytes(s) && i < |s|
    ensures var h := Hex(s); s[i] as int == 16 * Nibble(h[2 * i]) + Nibble(h[2 * i + 1])
  {
    if i > 0 {
      HexDigitsCount(s[1..], i - 1);
      assert Hex(s)[2..] == Hex(s[1..]);
    }
  }

  /** sha256Bytes. */
  function ShaBytes(sha: Sha, text: string): (r: string)
    requires Sha256Like(sha)
    ensures |r| == 32
  {
    sha(text)
  }

  /** sha256HexLowerFromBytes and sha256HexLowerFromUtf8String. */
  function ShaHex(sha: Sha, text: string): (r: string)
    requires Sha256Like(sha)
    ensures |r| == 64
  {
    Hex(sha(text))
  }

  lemma ShaHexInjective(sha: Sha, texts: set<string>, x: string, y: string)
    requires Sha256Like(sha) && CollisionFree(sha, texts) && x in texts && y in texts
    requires ShaHex(sha, x) == ShaHex(sha, y)
    ensures x == y
  {
    HexInjective(sha(x), sha(y));
  }
}
