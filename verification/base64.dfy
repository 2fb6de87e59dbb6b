/**
 * Base64 as the browser's `btoa` and `atob` implement it.
 *
 * `Encode` is the padded encoding of section 4 of RFC 4648 (alphabet of table 1,
 * "=" padding).  `Decode` is the "forgiving-base64 decode" of the WHATWG Infra
 * standard that `atob` runs: ASCII whitespace is removed, one or two trailing "="
 * are dropped when the length is a multiple of four, a length of 1 modulo 4 or a
 * character outside the alphabet is an error, and the bits left over in a final
 * partial group are discarded.
 */
module Base64 {
  import opened Wrappers

  /** An octet, as stored in a `Uint8Array`. */
  newtype byte = x: int | 0 <= x < 256

  /** A 6-bit group: the value one Base64 character stands for. */
  type sextet = x: int | 0 <= x < 64

  /** The only failure `btoa` and `atob` report (a DOMException named InvalidCharacterError). */
  datatype Base64Error = InvalidCharacter

  // ---------------------------------------------------------------------------
  // The alphabet (table 1 of RFC 4648)
  // ---------------------------------------------------------------------------

  predicate IsAlphabet(c: char) {
    ('A' <= c <= 'Z') || ('a' <= c <= 'z') || ('0' <= c <= '9') || c == '+' || c == '/'
  }

  /** The character that encodes value `v`. */
  function Char(v: sextet): (c: char)
    ensures IsAlphabet(c)
  {
    if v < 26 then (65 + v) as char
    else if v < 52 then (97 + (v - 26)) as char
    else if v < 62 then (48 + (v - 52)) as char
    else if v == 62 then '+'
    else '/'
  }

  /** The value a character of the alphabet encodes; the inverse of `Char`. */
  function Value(c: char): (v: sextet)
    requires IsAlphabet(c)
    ensures Char(v) == c
  {
    if 'A' <= c <= 'Z' then c as int - 65
    else if 'a' <= c <= 'z' then c as int - 97 + 26
    else if '0' <= c <= '9' then c as int - 48 + 52
    else if c == '+' then 62
    else 63
  }

  /** `Char` is injective, so `Value` undoes it. */
  lemma ValueOfChar(v: sextet)
    ensures Value(Char(v)) == v
  {
  }

  function Chars(vs: seq<sextet>): (s: string)
    ensures |s| == |vs|
    ensures forall i :: 0 <= i < |vs| ==> s[i] == Char(vs[i])
  {
    seq(|vs|, i requires 0 <= i < |vs| => Char(vs[i]))
  }

  function Values(s: string): (vs: seq<sextet>)
    requires forall i :: 0 <= i < |s| ==> IsAlphabet(s[i])
    ensures |vs| == |s|
    ensures forall i :: 0 <= i < |s| ==> Char(vs[i]) == s[i]
  {
    seq(|s|, i requires 0 <= i < |s| => Value(s[i]))
  }

  lemma ValuesOfChars(vs: seq<sextet>)
    ensures Values(Chars(vs)) == vs
  {
    var s := Chars(vs);
    forall i | 0 <= i < |vs|
      ensures Values(s)[i] == vs[i]
    {
      ValueOfChar(vs[i]);
    }
  }

  // ---------------------------------------------------------------------------
  // Splitting octets into sextets and back
  // ---------------------------------------------------------------------------

  /** Number of sextets that `n` octets occupy before padding. */
  function SextetCount(n: nat): nat {
    (n / 3) * 4 + (if n % 3 == 0 then 0 else n % 3 + 1)
  }

  /** The four sextets of three octets, most significant bit first. */
  function Split3(b0: byte, b1: byte, b2: byte): seq<sextet> {
    var x0, x1, x2 := b0 as int, b1 as int, b2 as int;
    [x0 / 4, (x0 % 4) * 16 + x1 / 16, (x1 % 16) * 4 + x2 / 64, x2 % 64]
  }

  /** The three octets carried by four sextets. */
  function Join4(v0: sextet, v1: sextet, v2: sextet, v3: sextet): seq<byte> {
    [(v0 * 4 + v1 / 16) as byte, ((v1 % 16) * 16 + v2 / 4) as byte, ((v2 % 4) * 64 + v3) as byte]
  }

  /**
   * The sextets of `b`; a final group of one or two octets is filled with
   * zero bits up to a whole sextet (section 4 of RFC 4648).
   */
  function Sextets(b: seq<byte>): (vs: seq<sextet>)
    ensures |vs| == SextetCount(|b|)
    decreases |b|
  {
    if |b| == 0 then []
    else if |b| == 1 then Split3(b[0], 0, 0)[..2]
    else if |b| == 2 then Split3(b[0], b[1], 0)[..3]
    else Split3(b[0], b[1], b[2]) + Sextets(b[3..])
  }

  /**
   * The octets carried by a run of sextets; a trailing group of two or three
   * sextets yields one or two octets and its left-over bits are dropped.
   */
  function Octets(vs: seq<sextet>): (b: seq<byte>)
    requires |vs| % 4 != 1
    ensures |b| == (|vs| / 4) * 3 + (if |vs| % 4 == 0 then 0 else |vs| % 4 - 1)
    decreases |vs|
  {
    if |vs| == 0 then []
    else if |vs| == 2 then Join4(vs[0], vs[1], 0, 0)[..1]
    else if |vs| == 3 then Join4(vs[0], vs[1], vs[2], 0)[..2]
    else Join4(vs[0], vs[1], vs[2], vs[3]) + Octets(vs[4..])
  }

  lemma SextetCountMod(n: nat)
    ensures SextetCount(n) % 4 != 1
    ensures SextetCount(n) / 4 == n / 3
    ensures SextetCount(n) % 4 == (if n % 3 == 0 then 0 else n % 3 + 1)
  {
  }

  /** Joining the sextets of three octets gives the octets back. */
  lemma JoinSplit(b0: byte, b1: byte, b2: byte)
    ensures var v := Split3(b0, b1, b2); Join4(v[0], v[1], v[2], v[3]) == [b0, b1, b2]
  {
    var x0, x1, x2 := b0 as int, b1 as int, b2 as int;
    assert ((x0 % 4) * 16 + x1 / 16) / 16 == x0 % 4;
    assert ((x0 % 4) * 16 + x1 / 16) % 16 == x1 / 16;
    assert ((x1 % 16) * 4 + x2 / 64) / 4 == x1 % 16;
    assert ((x1 % 16) * 4 + x2 / 64) % 4 == x2 / 64;
  }

  /** Reassembling the sextets of `b` gives back `b`. */
  lemma {:induction false} OctetsOfSextets(b: seq<byte>)
    ensures SextetCount(|b|) % 4 != 1
    ensures Octets(Sextets(b)) == b
    decreases |b|
  {
    SextetCountMod(|b|);
    if |b| == 0 {
    } else if |b| == 1 {
      JoinSplit(b[0], 0, 0);
    } else if |b| == 2 {
      JoinSplit(b[0], b[1], 0);
    } else {
      var vs := Sextets(b);
      SextetCountMod(|b[3..]|);
      OctetsOfSextets(b[3..]);
      JoinSplit(b[0], b[1], b[2]);
      assert vs[4..] == Sextets(b[3..]);
      assert b == [b[0], b[1], b[2]] + b[3..];
    }
  }

  // ---------------------------------------------------------------------------
  // Encoding (btoa)
  // ---------------------------------------------------------------------------

  /** The "=" characters that complete the final quantum of `n` octets. */
  function Padding(n: nat): string {
    if n % 3 == 1 then "==" else if n % 3 == 2 then "=" else ""
  }

  /** Padding completes the last quantum: the encoding of n octets is 4 * ceil(n / 3) characters. */
  lemma PaddedLength(n: nat)
    ensures SextetCount(n) + |Padding(n)| == ((n + 2) / 3) * 4
    ensures (SextetCount(n) + |Padding(n)|) % 4 == 0
  {
    var q, r := n / 3, n % 3;
    assert n == 3 * q + r;
    var k := if r == 0 then q else q + 1;
    assert (n + 2) / 3 == k;
    assert SextetCount(n) + |Padding(n)| == 4 * k;
  }

  /** Base64 encoding with padding, section 4 of RFC 4648. */
  function Encode(b: seq<byte>): (s: string)
    ensures |s| == ((|b| + 2) / 3) * 4
    ensures |s| % 4 == 0
  {
    var body, pad := Chars(Sextets(b)), Padding(|b|);
    PaddedLength(|b|);
    assert |body + pad| == SextetCount(|b|) + |Padding(|b|)|;
    body + pad
  }

  // One lemma per test vector, so that each is a small proof of its own.
  lemma VectorEmpty()
    ensures Encode([]) == ""
  {
  }

  lemma VectorF()
    ensures Encode([102]) == "Zg=="
  {
  }

  lemma VectorFo()
    ensures Encode([102, 111]) == "Zm8="
  {
  }

  lemma VectorFoo()
    ensures Encode([102, 111, 111]) == "Zm9v"
  {
  }

  lemma VectorFoob()
    ensures Encode([102, 111, 111, 98]) == "Zm9vYg=="
  {
  }

  lemma VectorFooba()
    ensures Encode([102, 111, 111, 98, 97]) == "Zm9vYmE="
  {
  }

  lemma VectorFoobar()
    ensures Encode([102, 111, 111, 98, 97, 114]) == "Zm9vYmFy"
  {
  }

  lemma VectorHighBits()
    ensures Encode([255, 254, 253]) == "//79"
  {
  }

  /** The test vectors of section 10 of RFC 4648 ("", "f", "fo", ..., "foobar"), and one with "+"/"/". */
  lemma EncodeTestVectors()
    ensures Encode([]) == ""
    ensures Encode([102]) == "Zg=="
    ensures Encode([102, 111]) == "Zm8="
    ensures Encode([102, 111, 111]) == "Zm9v"
    ensures Encode([102, 111, 111, 98]) == "Zm9vYg=="
    ensures Encode([102, 111, 111, 98, 97]) == "Zm9vYmE="
    ensures Encode([102, 111, 111, 98, 97, 114]) == "Zm9vYmFy"
    ensures Encode([255, 254, 253]) == "//79"
  {
    VectorEmpty();
    VectorF();
    VectorFo();
    VectorFoo();
    VectorFoob();
    VectorFooba();
    VectorFoobar();
    VectorHighBits();
  }

  // ---------------------------------------------------------------------------
  // Forgiving decoding (atob)
  // ---------------------------------------------------------------------------

  /** ASCII whitespace: TAB, LF, FF, CR and SPACE. */
  predicate IsAsciiWhitespace(c: char) {
    c == '\t' || c == '\n' || c == '\U{000C}' || c == '\r' || c == ' '
  }

  function RemoveWhitespace(s: string): (t: string)
    ensures |t| <= |s|
    ensures forall i :: 0 <= i < |t| ==> !IsAsciiWhitespace(t[i])
    ensures (forall i :: 0 <= i < |s| ==> !IsAsciiWhitespace(s[i])) ==> t == s
  {
    if |s| == 0 then ""
    else if IsAsciiWhitespace(s[0]) then RemoveWhitespace(s[1..])
    else [s[0]] + RemoveWhitespace(s[1..])
  }

  /** Drops one or two trailing "=" when the length is a multiple of four. */
  function RemovePadding(s: string): (t: string)
    ensures t <= s && |s| - 2 <= |t|
  {
    if |s| % 4 == 0 && |s| >= 2 && s[|s| - 2..] == "==" then s[..|s| - 2]
    else if |s| % 4 == 0 && |s| >= 1 && s[|s| - 1] == '=' then s[..|s| - 1]
    else s
  }

  /** The forgiving-base64 decode that `atob` performs. */
  function Decode(s: string): (r: Result<seq<byte>, Base64Error>)
    ensures r.Success? ==> |r.value| <= |s|
  {
    var data := RemovePadding(RemoveWhitespace(s));
    if |data| % 4 == 1 then Failure(InvalidCharacter)
    else if exists i :: 0 <= i < |data| && !IsAlphabet(data[i]) then Failure(InvalidCharacter)
    else Success(Octets(Values(data)))
  }

  /** An encoding contains only alphabet characters and "=", so no whitespace. */
  lemma EncodeHasNoWhitespace(b: seq<byte>)
    ensures RemoveWhitespace(Encode(b)) == Encode(b)
  {
    var s := Encode(b);
    var body := Chars(Sextets(b));
    forall i | 0 <= i < |s|
      ensures !IsAsciiWhitespace(s[i])
    {
      if i < |body| {
        assert s[i] == body[i];
      } else {
        assert s[i] == Padding(|b|)[i - |body|];
      }
    }
  }

  /** Dropping the padding of an encoding leaves exactly its alphabet characters. */
  lemma RemovePaddingOfEncode(b: seq<byte>)
    ensures RemovePadding(Encode(b)) == Chars(Sextets(b))
  {
    var body := Chars(Sextets(b));
    var pad := Padding(|b|);
    var s := Encode(b);
    var L := |body|;
    SextetCountMod(|b|);
    assert s == body + pad;
    assert |s| % 4 == 0;
    if |b| % 3 == 0 {
      assert s == body;
      if L >= 1 {
        assert IsAlphabet(s[L - 1]);
      }
    } else if |b| % 3 == 1 {
      assert |s| == L + 2;
      assert s[L..] == "==";
      assert s[..L] == body;
    } else {
      assert |s| == L + 1 && L >= 3;
      assert IsAlphabet(s[L - 1]);
      assert s[L - 1..][0] == s[L - 1];
      assert s[L] == '=';
      assert s[..L] == body;
    }
  }

  /** `atob` also accepts an encoding whose padding was left off. */
  lemma DecodeUnpadded(b: seq<byte>)
    ensures Decode(Chars(Sextets(b))) == Success(b)
  {
    var vs := Sextets(b);
    var body := Chars(vs);
    SextetCountMod(|b|);
    assert RemoveWhitespace(body) == body;
    if |body| >= 1 {
      assert IsAlphabet(body[|body| - 1]);
      if |body| >= 2 {
        assert body[|body| - 2..][1] == body[|body| - 1];
      }
    }
    assert RemovePadding(body) == body;
    OctetsOfSextets(b);
    ValuesOfChars(vs);
  }

  /** Decoding the encoding of any octet sequence, the empty one included, gives it back. */
  lemma RoundTrip(b: seq<byte>)
    ensures Decode(Encode(b)) == Success(b)
  {
    var vs := Sextets(b);
    EncodeHasNoWhitespace(b);
    RemovePaddingOfEncode(b);
    SextetCountMod(|b|);
    OctetsOfSextets(b);
    ValuesOfChars(vs);
    var data := RemovePadding(RemoveWhitespace(Encode(b)));
    assert data == Chars(vs);
    assert forall i :: 0 <= i < |data| ==> IsAlphabet(data[i]);
  }

  // ---------------------------------------------------------------------------
  // Binary strings: the string form `btoa` takes and `atob` returns
  // ---------------------------------------------------------------------------

  /** A string whose every character is at most U+00FF, standing for one octet each. */
  predicate IsBinaryString(s: string) {
    forall i :: 0 <= i < |s| ==> s[i] as int < 256
  }

  /** One character per octet, the character code equal to the octet. */
  function ToBinary(b: seq<byte>): (s: string)
    ensures |s| == |b| && IsBinaryString(s)
    ensures forall i :: 0 <= i < |b| ==> s[i] as int == b[i] as int
  {
    seq(|b|, i requires 0 <= i < |b| => (b[i] as int) as char)
  }

  /** The octets a binary string stands for. */
  function FromBinary(s: string): (b: seq<byte>)
    requires IsBinaryString(s)
    ensures |b| == |s|
    ensures forall i :: 0 <= i < |s| ==> b[i] as int == s[i] as int
  {
    seq(|s|, i requires 0 <= i < |s| => (s[i] as int) as byte)
  }

  lemma FromToBinary(b: seq<byte>)
    ensures FromBinary(ToBinary(b)) == b
  {
  }

  /** `btoa`: encodes a binary string and throws on any character above U+00FF. */
  function Btoa(s: string): (r: Result<string, Base64Error>)
    ensures r.Success? <==> IsBinaryString(s)
    ensures r.Success? ==> |r.value| % 4 == 0
  {
    if IsBinaryString(s) then Success(Encode(FromBinary(s))) else Failure(InvalidCharacter)
  }

  /** `atob`: forgiving decoding whose octets are returned as a binary string. */
  function Atob(s: string): (r: Result<string, Base64Error>)
    ensures r.Success? ==> IsBinaryString(r.value)
    ensures r.Success? <==> Decode(s).Success?
  {
    match Decode(s)
    case Success(b) => Success(ToBinary(b))
    case Failure(e) => Failure(e)
  }

  /** `atob(btoa(s)) == s` for every string `btoa` accepts. */
  lemma AtobBtoa(s: string)
    requires IsBinaryString(s)
    ensures Atob(Btoa(s).value) == Success(s)
  {
    var b := FromBinary(s);
    RoundTrip(b);
    assert ToBinary(b) == s;
  }
}
