/**
 * The byte-string codecs of jsoncons_utilities.hpp: base16 (section 8 of RFC 4648),
 * base64 (section 4 of RFC 4648) and base64url (section 5 of RFC 4648).
 *
 * The encoders append to a caller-owned container and return how many characters
 * they appended; the decoders build a fresh byte vector or raise
 * std::invalid_argument, modelled as a `Failure`.
 *
 * Octets are integers in [0, 256). Where the source masks and shifts an octet, the
 * model divides and takes remainders by the matching power of two: `c >> 4` is
 * `c / 16`, `c & 15` is `c % 16`, and a value stored back into a uint8_t is taken
 * modulo 256.
 */
module Utilities {
  import opened Wrappers

  /** An octet (uint8_t). */
  newtype Byte = x: int | 0 <= x < 256

  /** One `char` of a std::string: a code unit below 256. */
  type Char8 = c: char | c as int < 256

  /** std::invalid_argument together with its what() text. */
  datatype InvalidArgument = InvalidArgument(what: string)

  /** The octet a `char` becomes when it is stored into a uint8_t. */
  function ToByte(c: Char8): (b: Byte)
    ensures b as int == c as int
  {
    (c as int) as Byte
  }

  /** A caller-owned character container with push_back, such as std::string. */
  class CharBuffer {
    var contents: seq<Char8>

    constructor (initial: seq<Char8>)
      ensures contents == initial
    {
      contents := initial;
    }

    method PushBack(c: Char8)
      modifies this
      ensures contents == old(contents) + [c]
    {
      contents := contents + [c];
    }
  }

  /** Euclidean division by the powers of two the codecs use, stated once. */
  lemma {:induction false} DivMod(q: int, r: int, d: int)
    requires d == 3 || d == 4 || d == 16 || d == 64 || d == 4096 || d == 262144
    requires 0 <= r < d
    ensures (q * d + r) / d == q && (q * d + r) % d == r
  {
  }

  // ---------------------------------------------------------------------------
  // Alphabets
  // ---------------------------------------------------------------------------

  /** The lookup table of encode_base16 and decode_base16. */
  const HexDigits: seq<Char8> := "0123456789ABCDEF"

  /** base64_alphabet: 64 digits followed by the pad character '=' at index 64. */
  const Base64Alphabet: seq<Char8> :=
    "ABCDEFGHIJKLMNOPQRSTUVWXYZ" + "abcdefghijklmnopqrstuvwxyz" + "0123456789+/" + "="

  /** base64url_alphabet: 64 digits followed by NUL at index 64, so no padding is written. */
  const Base64UrlAlphabet: seq<Char8> :=
    "ABCDEFGHIJKLMNOPQRSTUVWXYZ" + "abcdefghijklmnopqrstuvwxyz" + "0123456789-_" + "\0"

  /** The base16 digit of a nibble, as tabulated in section 8 of RFC 4648. */
  function HexDigit(v: nat): Char8
    requires v < 16
  {
    if v < 10 then ('0' as int + v) as char else ('A' as int + v - 10) as char
  }

  /** The value of a base16 digit; lower-case letters are not digits. */
  function HexValue(c: char): (r: Option<nat>)
    ensures r.Some? ==> r.value < 16 && HexDigit(r.value) == c
  {
    if '0' <= c <= '9' then Some(c as int - '0' as int)
    else if 'A' <= c <= 'F' then Some(c as int - 'A' as int + 10)
    else None
  }

  lemma {:induction false} HexValueOfDigit(v: nat)
    requires v < 16
    ensures HexValue(HexDigit(v)) == Some(v)
  {
  }

  /** The character of a 6-bit value in the tables of sections 4 and 5 of RFC 4648;
      `c62` and `c63` are the two table-specific characters. */
  function SextetChar(s: nat, c62: Char8, c63: Char8): Char8
    requires s < 64
  {
    if s < 26 then ('A' as int + s) as char
    else if s < 52 then ('a' as int + s - 26) as char
    else if s < 62 then ('0' as int + s - 52) as char
    else if s == 62 then c62
    else c63
  }

  lemma HexDigitsTable()
    ensures |HexDigits| == 16
    ensures forall v :: 0 <= v < 16 ==> HexDigits[v] == HexDigit(v)
  {
  }

  lemma Base64AlphabetPad()
    ensures |Base64Alphabet| == 65 && Base64Alphabet[64] == '='
  {
  }

  lemma Base64UrlAlphabetPad()
    ensures |Base64UrlAlphabet| == 65 && Base64UrlAlphabet[64] == '\0'
  {
  }

  lemma Base64AlphabetTable()
    ensures |Base64Alphabet| == 65 && Base64Alphabet[64] == '='
    ensures forall s :: 0 <= s < 64 ==> Base64Alphabet[s] == SextetChar(s, '+', '/')
  {
  }

  lemma Base64UrlAlphabetTable()
    ensures |Base64UrlAlphabet| == 65 && Base64UrlAlphabet[64] == '\0'
    ensures forall s :: 0 <= s < 64 ==> Base64UrlAlphabet[s] == SextetChar(s, '-', '_')
  {
  }

  /** isalnum in the "C" locale. */
  predicate IsAlnum(c: Char8)
  {
    'A' <= c <= 'Z' || 'a' <= c <= 'z' || '0' <= c <= '9'
  }

  /** is_base64: the characters decode_base64 accepts before the first '='. */
  predicate IsBase64(c: Char8)
    ensures IsBase64(c) ==> c != '=' && c != '\0'
    ensures c == '+' || c == '/' ==> IsBase64(c)
  {
    IsAlnum(c) || c == '+' || c == '/'
  }

  /** is_base64url: the characters decode_base64url accepts before the first '='. */
  predicate IsBase64Url(c: Char8)
    ensures IsBase64Url(c) ==> c != '=' && c != '\0'
    ensures c == '-' || c == '_' ==> IsBase64Url(c)
  {
    IsAlnum(c) || c == '-' || c == '_'
  }

  /** A 6-bit value's character is alphanumeric or one of the two table-specific characters. */
  lemma {:induction false} SextetCharKind(s: nat, c62: Char8, c63: Char8)
    requires s < 64
    ensures var c := SextetChar(s, c62, c63); IsAlnum(c) || c == c62 || c == c63
  {
  }

  /** The 6-bit value of an alphanumeric character. */
  function AlnumSextet(c: Char8): (s: nat)
    requires IsAlnum(c)
    ensures s < 62 && SextetChar(s, '+', '/') == c && SextetChar(s, '-', '_') == c
  {
    if 'A' <= c <= 'Z' then c as int - 'A' as int
    else if 'a' <= c <= 'z' then c as int - 'a' as int + 26
    else c as int - '0' as int + 52
  }

  /** A table of the 64 characters of SextetChar holds exactly the alphanumeric characters and the
      two table-specific ones. */
  lemma {:induction false} SextetTableHolds(table: seq<Char8>, c62: Char8, c63: Char8, c: Char8)
    requires c62 in "+-" && c63 in "/_"
    requires |table| == 64 && forall s :: 0 <= s < 64 ==> table[s] == SextetChar(s, c62, c63)
    ensures (IsAlnum(c) || c == c62 || c == c63) <==> c in table
  {
    if c in table {
      var s :| 0 <= s < 64 && table[s] == c;
      SextetCharKind(s, c62, c63);
    }
    if IsAlnum(c) {
      assert table[AlnumSextet(c)] == c;
    } else if c == c62 {
      assert table[62] == c;
    } else if c == c63 {
      assert table[63] == c;
    }
  }

  /** is_base64 accepts exactly the 64 digits of the standard alphabet. */
  lemma {:induction false} IsBase64AcceptsAlphabet(c: Char8)
    ensures IsBase64(c) <==> c in Base64Alphabet[..64]
  {
    Base64AlphabetTable();
    SextetTableHolds(Base64Alphabet[..64], '+', '/', c);
  }

  /** is_base64url accepts exactly the 64 digits of the URL-safe alphabet. */
  lemma {:induction false} IsBase64UrlAcceptsAlphabet(c: Char8)
    ensures IsBase64Url(c) <==> c in Base64UrlAlphabet[..64]
  {
    Base64UrlAlphabetTable();
    SextetTableHolds(Base64UrlAlphabet[..64], '-', '_', c);
  }

  // ---------------------------------------------------------------------------
  // base16
  // ---------------------------------------------------------------------------

  /** The base16 text of `data`: per octet, the digit of its high nibble, then of its low nibble. */
  function Base16(data: seq<Byte>): seq<Char8>
    decreases |data|
  {
    if data == [] then []
    else
      var c := data[|data| - 1] as int;
      Base16(data[..|data| - 1]) + [HexDigit(c / 16), HexDigit(c % 16)]
  }

  /** Section 8 of RFC 4648: octet k becomes characters 2k (high nibble) and 2k+1 (low nibble). */
  lemma {:induction false} Base16Layout(data: seq<Byte>)
    ensures |Base16(data)| == 2 * |data|
    ensures forall k :: 0 <= k < |data| ==>
      Base16(data)[2 * k] == HexDigit(data[k] as int / 16) &&
      Base16(data)[2 * k + 1] == HexDigit(data[k] as int % 16)
  {
    if data != [] {
      var init := data[..|data| - 1];
      Base16Layout(init);
      forall k | 0 <= k < |data|
        ensures Base16(data)[2 * k] == HexDigit(data[k] as int / 16)
        ensures Base16(data)[2 * k + 1] == HexDigit(data[k] as int % 16)
      {
        if k < |init| {
          assert data[k] == init[k];
        }
      }
    }
  }

  lemma {:induction false} Base16Step(data: seq<Byte>, i: nat)
    requires i < |data|
    ensures Base16(data[..i + 1]) == Base16(data[..i]) + [HexDigit(data[i] as int / 16), HexDigit(data[i] as int % 16)]
  {
    assert data[..i + 1][..i] == data[..i];
  }

  /**
   * encode_base16: appends two digits per octet, looked up in the digit table with
   * the high and the low nibble, and returns 2·length.
   */
  method EncodeBase16(data: seq<Byte>, result: CharBuffer) returns (count: nat)
    modifies result
    ensures result.contents == old(result.contents) + Base16(data)
    ensures count == 2 * |data|
  {
    HexDigitsTable();
    var lut := HexDigits;
    var i := 0;
    while i < |data|
      invariant 0 <= i <= |data|
      invariant result.contents == old(result.contents) + Base16(data[..i])
    {
      var c := data[i];
      result.PushBack(lut[c as int / 16]);
      result.PushBack(lut[c as int % 16]);
      Base16Step(data, i);
      i := i + 1;
    }
    assert data[..i] == data;
    count := |data| * 2;
  }

  predicate IsHexDigit(c: char)
  {
    HexValue(c).Some?
  }

  /** The octet decode_base16 stores for two digit values: (hi << 4) | lo. */
  function PackNibbles(hi: nat, lo: nat): Byte
    requires hi < 16 && lo < 16
  {
    (hi * 16 + lo) as Byte
  }

  /** Every character of `s` is a base16 digit. */
  predicate AllHexDigits(s: seq<Char8>)
  {
    forall j :: 0 <= j < |s| ==> IsHexDigit(s[j])
  }

  /** The octets of a text of base16 digit pairs (an odd leading digit would be ignored). */
  function HexPairs(s: seq<Char8>): seq<Byte>
    requires AllHexDigits(s)
    decreases |s|
  {
    if |s| < 2 then []
    else
      assert IsHexDigit(s[|s| - 2]) && IsHexDigit(s[|s| - 1]);
      var hi := HexValue(s[|s| - 2]).value;
      var lo := HexValue(s[|s| - 1]).value;
      HexPairs(s[..|s| - 2]) + [PackNibbles(hi, lo)]
  }

  /**
   * What decode_base16 yields for `s`: "odd length" when the length is odd (before any
   * character is looked at), "not a hex digit" when some character is outside 0-9A-F,
   * the octets of the digit pairs otherwise.
   */
  function Base16Decoded(s: seq<Char8>): Result<seq<Byte>, InvalidArgument>
  {
    if |s| % 2 == 1 then Failure(InvalidArgument("odd length"))
    else if !AllHexDigits(s) then Failure(InvalidArgument("not a hex digit"))
    else Success(HexPairs(s))
  }

  /** A successful base16 decode yields one octet per two characters. */
  lemma {:induction false} HexPairsLength(s: seq<Char8>)
    requires |s| % 2 == 0
    requires AllHexDigits(s)
    ensures |HexPairs(s)| == |s| / 2
  {
    if |s| >= 2 {
      HexPairsLength(s[..|s| - 2]);
    }
  }

  /** std::lower_bound over a table sorted ascending: the first position whose entry is not below `c`. */
  function LowerBound(table: seq<Char8>, c: char): (p: nat)
    ensures p <= |table|
  {
    if table == [] || c <= table[0] then 0 else 1 + LowerBound(table[1..], c)
  }

  /** The entry at position `p` of a NUL-terminated C string table (the terminator at its end). */
  function EntryAt(table: seq<Char8>, p: nat): Char8
  {
    if p < |table| then table[p] else '\0'
  }

  predicate StrictlySorted(table: seq<Char8>)
  {
    forall i, j :: 0 <= i < j < |table| ==> table[i] < table[j]
  }

  /** Every entry before the lower bound is below `c`. */
  lemma {:induction false} LowerBoundBelow(table: seq<Char8>, c: char)
    ensures forall i :: 0 <= i < LowerBound(table, c) ==> table[i] < c
  {
    if table != [] && !(c <= table[0]) {
      LowerBoundBelow(table[1..], c);
    }
  }

  /** In a strictly sorted table, lower_bound finds an entry at its own position. */
  lemma {:induction false} LowerBoundFinds(table: seq<Char8>, c: char, v: nat)
    requires StrictlySorted(table)
    requires v < |table| && table[v] == c
    ensures LowerBound(table, c) == v
  {
    if v > 0 {
      assert table[0] < table[v];
      LowerBoundFinds(table[1..], c, v - 1);
    }
  }

  /** The test of decode_base16 (look the character up with lower_bound, compare the entry
      found with it) accepts exactly the base16 digits, and finds each at its value. */
  lemma {:induction false} LowerBoundHexDigit(c: Char8)
    ensures EntryAt(HexDigits, LowerBound(HexDigits, c)) == c <==> IsHexDigit(c)
    ensures IsHexDigit(c) ==> LowerBound(HexDigits, c) == HexValue(c).value
  {
    HexDigitsTable();
    var p := LowerBound(HexDigits, c);
    if p < 16 && HexDigits[p] == c {
      assert HexDigit(p) == c;
      HexValueOfDigit(p);
    }
    LowerBoundBelow(HexDigits, c);
    assert p == 16 ==> HexDigits[15] < c;
    if IsHexDigit(c) {
      var v := HexValue(c).value;
      assert HexDigits[v] == c;
      LowerBoundFinds(HexDigits, c, v);
    }
  }

  /**
   * decode_base16: rejects an odd length, then converts each pair of digits, each looked
   * up with lower_bound in the sorted digit table.
   */
  method DecodeBase16(input: seq<Char8>) returns (r: Result<seq<Byte>, InvalidArgument>)
    ensures r == Base16Decoded(input)
  {
    var alphabet := HexDigits;
    var len := |input|;
    if len % 2 == 1 {
      return Failure(InvalidArgument("odd length"));
    }
    var result: seq<Byte> := [];
    var i := 0;
    ghost var pairs, k := len / 2, 0;
    while i < len
      invariant 0 <= k <= pairs && i == 2 * k && len == 2 * pairs
      invariant AllHexDigits(input[..i])
      invariant result == HexPairs(input[..i])
    {
      var a := input[i];
      var p := LowerBound(alphabet, a);
      if EntryAt(alphabet, p) != a {
        Base16Rejects(input, i);
        return Failure(InvalidArgument("not a hex digit"));
      }
      var b := input[i + 1];
      var q := LowerBound(alphabet, b);
      if EntryAt(alphabet, q) != b {
        Base16Rejects(input, i + 1);
        return Failure(InvalidArgument("not a hex digit"));
      }
      LowerBoundHexDigit(a);
      LowerBoundHexDigit(b);
      Base16PairStep(input, i);
      result := result + [PackNibbles(p, q)];
      i, k := i + 2, k + 1;
    }
    assert input[..i] == input;
    return Success(result);
  }

  /** A character the lower_bound test rejects makes an even-length text "not a hex digit". */
  lemma {:induction false} Base16Rejects(input: seq<Char8>, i: nat)
    requires i < |input| && |input| % 2 == 0
    requires EntryAt(HexDigits, LowerBound(HexDigits, input[i])) != input[i]
    ensures Base16Decoded(input) == Failure(InvalidArgument("not a hex digit"))
  {
    LowerBoundHexDigit(input[i]);
  }

  /** Two more digits extend the decoded octets by one. */
  lemma {:induction false} Base16PairStep(input: seq<Char8>, i: nat)
    requires i + 2 <= |input| && AllHexDigits(input[..i])
    requires IsHexDigit(input[i]) && IsHexDigit(input[i + 1])
    ensures AllHexDigits(input[..i + 2])
    ensures HexPairs(input[..i + 2]) == HexPairs(input[..i]) + [PackNibbles(HexValue(input[i]).value, HexValue(input[i + 1]).value)]
  {
    var t := input[..i + 2];
    assert t == input[..i] + [input[i], input[i + 1]];
    assert t[..|t| - 2] == input[..i];
  }

  lemma {:induction false} NibbleRoundTrip(c: Byte)
    ensures PackNibbles(c as int / 16, c as int % 16) == c
  {
  }

  /** Base16 text consists of base16 digits only. */
  lemma {:induction false} Base16Digits(data: seq<Byte>)
    ensures AllHexDigits(Base16(data))
  {
    Base16Layout(data);
    var s := Base16(data);
    forall j | 0 <= j < |s|
      ensures IsHexDigit(s[j])
    {
      var k := j / 2;
      if j == 2 * k {
        HexValueOfDigit(data[k] as int / 16);
      } else {
        HexValueOfDigit(data[k] as int % 16);
      }
    }
  }

  lemma {:induction false} HexPairsOfBase16(data: seq<Byte>)
    ensures AllHexDigits(Base16(data))
    ensures HexPairs(Base16(data)) == data
  {
    Base16Digits(data);
    if data != [] {
      var init := data[..|data| - 1];
      var c := data[|data| - 1];
      assert data == init + [c];
      var s := Base16(data);
      HexPairsOfBase16(init);
      assert s == Base16(init) + [HexDigit(c as int / 16), HexDigit(c as int % 16)];
      assert s[..|s| - 2] == Base16(init);
      HexValueOfDigit(c as int / 16);
      HexValueOfDigit(c as int % 16);
      NibbleRoundTrip(c);
    }
  }

  /** decode_base16(encode_base16(b)) == b. */
  lemma {:induction false} Base16RoundTrip(data: seq<Byte>)
    ensures Base16Decoded(Base16(data)) == Success(data)
  {
    var s := Base16(data);
    Base16Layout(data);
    assert |s| % 2 == 0;
    HexPairsOfBase16(data);
  }

  // ---------------------------------------------------------------------------
  // base64 and base64url: encoding
  // ---------------------------------------------------------------------------

  /** The four 6-bit values (a4) of a 3-octet group (a3), as encode_base64_generic computes them:
      (b0 & 0xfc) >> 2, ((b0 & 0x03) << 4) + ((b1 & 0xf0) >> 4),
      ((b1 & 0x0f) << 2) + ((b2 & 0xc0) >> 6) and b2 & 0x3f. */
  function Sextet0(b0: Byte): (r: Byte)
    ensures r < 64
  {
    b0 / 4
  }

  function Sextet1(b0: Byte, b1: Byte): (r: Byte)
    ensures r < 64
  {
    b0 % 4 * 16 + b1 / 16
  }

  function Sextet2(b1: Byte, b2: Byte): (r: Byte)
    ensures r < 64
  {
    b1 % 16 * 4 + b2 / 64
  }

  function Sextet3(b2: Byte): (r: Byte)
    ensures r < 64
  {
    b2 % 64
  }

  /** Sections 4 and 5 of RFC 4648: the four values are the 6-bit groups of the 24-bit
      group b0·b1·b2, most significant first. */
  lemma {:induction false} SextetsSplitGroup(b0: Byte, b1: Byte, b2: Byte)
    ensures var g := b0 as int * 65536 + b1 as int * 256 + b2 as int;
      && Sextet0(b0) as int == g / 262144
      && Sextet1(b0, b1) as int == g / 4096 % 64
      && Sextet2(b1, b2) as int == g / 64 % 64
      && Sextet3(b2) as int == g % 64
  {
    var x0, x1, x2 := b0 as int, b1 as int, b2 as int;
    DivMod(x0 / 4, x0 % 4 * 65536 + x1 * 256 + x2, 262144);
    DivMod(x0 * 16 + x1 / 16, x1 % 16 * 256 + x2, 4096);
    DivMod(x0 / 4, x0 % 4 * 16 + x1 / 16, 64);
    DivMod(x0 * 1024 + x1 * 4 + x2 / 64, x2 % 64, 64);
    DivMod(x0 * 16 + x1 / 16, x1 % 16 * 4 + x2 / 64, 64);
  }

  /** The four characters of one complete 3-octet group. */
  function EncodeGroup(alphabet: seq<Char8>, b0: Byte, b1: Byte, b2: Byte): seq<Char8>
    requires |alphabet| >= 64
  {
    [alphabet[Sextet0(b0) as int], alphabet[Sextet1(b0, b1) as int],
     alphabet[Sextet2(b1, b2) as int], alphabet[Sextet3(b2) as int]]
  }

  /** The characters of the complete groups of `data`, taken three octets at a time. */
  function EncodeGroups(alphabet: seq<Char8>, data: seq<Byte>): seq<Char8>
    requires |alphabet| >= 64
    decreases |data|
  {
    if |data| < 3 then []
    else
      var n := |data|;
      EncodeGroups(alphabet, data[..n - 3]) + EncodeGroup(alphabet, data[n - 3], data[n - 2], data[n - 1])
  }

  /** `c` repeated `n` times. */
  function Repeat(c: Char8, n: nat): (r: seq<Char8>)
    ensures |r| == n && forall i :: 0 <= i < n ==> r[i] == c
  {
    if n == 0 then [] else Repeat(c, n - 1) + [c]
  }

  /** The digits of a final group of one or two octets, zero-filled to three: the first |rest|+1 of its four. */
  function FinalDigits(alphabet: seq<Char8>, rest: seq<Byte>): (r: seq<Char8>)
    requires |alphabet| >= 64
    requires 1 <= |rest| <= 2
    ensures |r| == |rest| + 1
  {
    var b0 := rest[0];
    var b1: Byte := if |rest| == 2 then rest[1] else 0;
    [alphabet[Sextet0(b0) as int], alphabet[Sextet1(b0, b1) as int], alphabet[Sextet2(b1, 0) as int]][..|rest| + 1]
  }

  /** The padding after a final group: `fill` up to four characters in all, none when `fill` is NUL. */
  function Padding(fill: Char8, rest: seq<Byte>): seq<Char8>
    requires 1 <= |rest| <= 2
  {
    if fill != '\0' then Repeat(fill, 3 - |rest|) else []
  }

  /** What encode_base64_generic appends: the complete groups, then the final partial group and its padding. */
  function EncodeBase64Text(alphabet: seq<Char8>, data: seq<Byte>): seq<Char8>
    requires |alphabet| >= 65
  {
    var full := |data| - |data| % 3;
    EncodeGroups(alphabet, data[..full])
      + (if full == |data| then [] else FinalDigits(alphabet, data[full..]) + Padding(alphabet[64], data[full..]))
  }

  lemma {:induction false} EncodeGroupsStep(alphabet: seq<Char8>, data: seq<Byte>, g: nat)
    requires |alphabet| >= 64 && 3 * g + 3 <= |data|
    ensures EncodeGroups(alphabet, data[..3 * g + 3])
      == EncodeGroups(alphabet, data[..3 * g]) + EncodeGroup(alphabet, data[3 * g], data[3 * g + 1], data[3 * g + 2])
  {
    var d := data[..3 * g + 3];
    assert d[..|d| - 3] == data[..3 * g];
  }

  /** Once the input is exhausted with `i` octets pending, the complete groups are the first 3·g octets. */
  lemma {:induction false} EncodeTextSplit(alphabet: seq<Char8>, data: seq<Byte>, g: nat, i: nat)
    requires |alphabet| >= 65 && i < 3 && |data| == 3 * g + i
    ensures EncodeBase64Text(alphabet, data)
      == EncodeGroups(alphabet, data[..3 * g])
         + (if i == 0 then [] else FinalDigits(alphabet, data[3 * g..]) + Padding(alphabet[64], data[3 * g..]))
  {
    var n := |data|;
    assert n == g * 3 + i;
    DivMod(g, i, 3);
    assert n - n % 3 == 3 * g;
  }

  /** Appends the characters of the first `n` 6-bit values in a4 (`result.push_back(alphabet[a4[j]])`). */
  method PushDigits(a4: array<Byte>, n: nat, alphabet: seq<Char8>, result: CharBuffer, ghost digits: seq<Char8>) returns (pushed: nat)
    requires n <= a4.Length && |digits| == n
    requires forall t :: 0 <= t < n ==> a4[t] as int < |alphabet| && digits[t] == alphabet[a4[t] as int]
    modifies result
    ensures result.contents == old(result.contents) + digits
    ensures pushed == n
  {
    pushed := 0;
    var j := 0;
    while j < n
      invariant 0 <= j <= n && pushed == j
      invariant result.contents == old(result.contents) + digits[..j]
    {
      result.PushBack(alphabet[a4[j] as int]);
      pushed := pushed + 1;
      j := j + 1;
    }
  }

  /** Appends the fill character after a final group of `i` octets (`while (i++ < 3) result.push_back(fill)`). */
  method PushFill(fill: Char8, i: nat, result: CharBuffer) returns (pushed: nat)
    requires i <= 3
    modifies result
    ensures result.contents == old(result.contents) + Repeat(fill, 3 - i)
    ensures pushed == 3 - i
  {
    pushed := 0;
    var k := i;
    while k < 3
      invariant i <= k <= 3 && pushed == k - i
      invariant result.contents == old(result.contents) + Repeat(fill, k - i)
    {
      k := k + 1;
      result.PushBack(fill);
      pushed := pushed + 1;
    }
  }

  /**
   * One complete group of encode_base64_generic: the four 6-bit values of a3 go to a4,
   * and their four characters are appended.
   */
  method EncodeGroupInto(a3: array<Byte>, a4: array<Byte>, alphabet: seq<Char8>, result: CharBuffer,
                         ghost data: seq<Byte>, ghost g: nat, ghost base: seq<Char8>) returns (pushed: nat)
    requires a3.Length == 3 && a4.Length == 4 && |alphabet| >= 64
    requires 3 * g + 3 <= |data| && a3[..] == data[3 * g..3 * g + 3]
    requires result.contents == base + EncodeGroups(alphabet, data[..3 * g])
    modifies a4, result
    ensures result.contents == base + EncodeGroups(alphabet, data[..3 * g + 3])
    ensures |result.contents| == |old(result.contents)| + pushed && pushed == 4
  {
    EncodeGroupsStep(alphabet, data, g);
    assert a3[0] == data[3 * g] && a3[1] == data[3 * g + 1] && a3[2] == data[3 * g + 2];
    a4[0] := Sextet0(a3[0]);
    a4[1] := Sextet1(a3[0], a3[1]);
    a4[2] := Sextet2(a3[1], a3[2]);
    a4[3] := Sextet3(a3[2]);
    ghost var group := EncodeGroup(alphabet, a3[0], a3[1], a3[2]);
    forall t | 0 <= t < 4
      ensures a4[t] as int < |alphabet| && group[t] == alphabet[a4[t] as int]
    {
      if t == 0 {
      } else if t == 1 {
      } else if t == 2 {
      } else {
      }
    }
    pushed := PushDigits(a4, 4, alphabet, result, group);
  }

  /**
   * The final group of encode_base64_generic, with `i` (one or two) octets pending in
   * a3: the rest of a3 is zeroed, i+1 characters are appended, then the fill character
   * alphabet[64] until four characters in all, unless the fill character is NUL.
   */
  method EncodeFinalInto(a3: array<Byte>, a4: array<Byte>, i: nat, alphabet: seq<Char8>, result: CharBuffer) returns (pushed: nat)
    requires a3.Length == 3 && a4.Length == 4 && |alphabet| >= 65 && 1 <= i <= 2
    modifies a3, a4, result
    ensures result.contents == old(result.contents) + FinalDigits(alphabet, old(a3[..i])) + Padding(alphabet[64], old(a3[..i]))
    ensures pushed == i + 1 + |Padding(alphabet[64], old(a3[..i]))|
  {
    ghost var rest := a3[..i];
    var fill := alphabet[64];
    var j := i;
    while j < 3
      invariant i <= j <= 3
      invariant a3[..i] == rest
      invariant forall t :: i <= t < j ==> a3[t] == 0
      invariant result.contents == old(result.contents)
    {
      a3[j] := 0;
      j := j + 1;
    }
    a4[0] := Sextet0(a3[0]);
    a4[1] := Sextet1(a3[0], a3[1]);
    a4[2] := Sextet2(a3[1], a3[2]);
    ghost var digits := FinalDigits(alphabet, rest);
    assert digits == [alphabet[a4[0] as int], alphabet[a4[1] as int], alphabet[a4[2] as int]][..i + 1];
    pushed := PushDigits(a4, i + 1, alphabet, result, digits);
    if fill != '\0' {
      var p := PushFill(fill, i, result);
      pushed := pushed + p;
    }
  }

  /** Stores the next input octet into a3 (`a3[i++] = *first++`). */
  method Store(a3: array<Byte>, i: nat, data: seq<Byte>, first: nat)
    requires i < a3.Length && i <= first < |data| && a3[..i] == data[first - i..first]
    modifies a3
    ensures a3[..i + 1] == data[first - i..first + 1]
  {
    a3[i] := data[first];
    assert a3[..i + 1] == a3[..i] + [a3[i]];
  }

  /** After the input is exhausted: the final group, when one or two octets are pending. */
  method EncodeTail(a3: array<Byte>, a4: array<Byte>, i: nat, alphabet: seq<Char8>, result: CharBuffer,
                    ghost data: seq<Byte>, ghost g: nat, ghost base: seq<Char8>) returns (pushed: nat)
    requires a3.Length == 3 && a4.Length == 4 && |alphabet| >= 65 && i < 3
    requires |data| == 3 * g + i && a3[..i] == data[3 * g..]
    requires result.contents == base + EncodeGroups(alphabet, data[..3 * g])
    modifies a3, a4, result
    ensures result.contents == base + EncodeBase64Text(alphabet, data)
    ensures pushed == |result.contents| - |old(result.contents)|
  {
    EncodeTextSplit(alphabet, data, g, i);
    pushed := 0;
    if i > 0 {
      pushed := EncodeFinalInto(a3, a4, i, alphabet, result);
    }
  }

  /**
   * encode_base64_generic: reads the input three octets at a time into a3 and encodes
   * each complete group; a final group of one or two octets is encoded with zero fill
   * and padding. Returns the number of characters appended.
   */
  method EncodeBase64Generic(data: seq<Byte>, alphabet: seq<Char8>, result: CharBuffer) returns (count: nat)
    requires |alphabet| >= 65
    modifies result
    ensures result.contents == old(result.contents) + EncodeBase64Text(alphabet, data)
    ensures count == |EncodeBase64Text(alphabet, data)|
  {
    count := 0;
    var a3 := new Byte[3];
    var a4 := new Byte[4];
    var first := 0;
    var i := 0;
    ghost var groups := 0;
    ghost var base := result.contents;
    while first < |data|
      invariant 0 <= i < 3 && first == 3 * groups + i && first <= |data|
      invariant a3[..i] == data[3 * groups..first]
      invariant result.contents == base + EncodeGroups(alphabet, data[..3 * groups])
      invariant count == |result.contents| - |base|
    {
      Store(a3, i, data, first);
      i := i + 1;
      first := first + 1;
      if i == 3 {
        var pushed := EncodeGroupInto(a3, a4, alphabet, result, data, groups, base);
        count := count + pushed;
        groups := groups + 1;
        i := 0;
      }
    }
    var pushed := EncodeTail(a3, a4, i, alphabet, result, data, groups, base);
    count := count + pushed;
  }

  /** encode_base64: base64 with '=' padding, 4·⌈n/3⌉ characters (section 4 of RFC 4648). */
  method EncodeBase64(data: seq<Byte>, result: CharBuffer) returns (count: nat)
    modifies result
    ensures result.contents == old(result.contents) + EncodeBase64Text(Base64Alphabet, data)
    ensures count == 4 * ((|data| + 2) / 3)
  {
    Base64AlphabetPad();
    count := EncodeBase64Generic(data, Base64Alphabet, result);
    Base64Length(data);
  }

  /** encode_base64url: the URL-safe alphabet, no padding. */
  method EncodeBase64Url(data: seq<Byte>, result: CharBuffer) returns (count: nat)
    modifies result
    ensures result.contents == old(result.contents) + EncodeBase64Text(Base64UrlAlphabet, data)
    ensures count == 4 * (|data| / 3) + (if |data| % 3 == 0 then 0 else |data| % 3 + 1)
  {
    Base64UrlAlphabetPad();
    count := EncodeBase64Generic(data, Base64UrlAlphabet, result);
    Base64UrlLength(data);
  }

  lemma {:induction false} EncodeGroupsLength(alphabet: seq<Char8>, data: seq<Byte>, g: nat)
    requires |alphabet| >= 64 && |data| == 3 * g
    ensures |EncodeGroups(alphabet, data)| == 4 * g
  {
    if g > 0 {
      EncodeGroupsLength(alphabet, data[..|data| - 3], g - 1);
    }
  }

  /** Four characters per complete group; a final group of one or two octets takes one more
      character than it has octets, and four with its padding when the fill character is not NUL. */
  lemma {:induction false} EncodedLength(alphabet: seq<Char8>, data: seq<Byte>)
    requires |alphabet| >= 65
    ensures |EncodeBase64Text(alphabet, data)|
      == 4 * (|data| / 3) + (if |data| % 3 == 0 then 0 else if alphabet[64] == '\0' then |data| % 3 + 1 else 4)
  {
    var g, i := |data| / 3, |data| % 3;
    EncodeTextSplit(alphabet, data, g, i);
    EncodeGroupsLength(alphabet, data[..3 * g], g);
  }

  /** Section 4 of RFC 4648: 4·⌈n/3⌉ characters, the last group padded with '='. */
  lemma {:induction false} Base64Length(data: seq<Byte>)
    ensures |EncodeBase64Text(Base64Alphabet, data)| == 4 * ((|data| + 2) / 3)
  {
    Base64AlphabetPad();
    EncodedLength(Base64Alphabet, data);
    var g, i := |data| / 3, |data| % 3;
    if i == 0 {
      DivMod(g, 2, 3);
    } else {
      DivMod(g + 1, i - 1, 3);
    }
  }

  /** base64url as encode_base64url writes it: 4·⌊n/3⌋ characters, plus n%3+1 for a partial group and no padding. */
  lemma {:induction false} Base64UrlLength(data: seq<Byte>)
    ensures |EncodeBase64Text(Base64UrlAlphabet, data)| == 4 * (|data| / 3) + (if |data| % 3 == 0 then 0 else |data| % 3 + 1)
  {
    Base64UrlAlphabetPad();
    EncodedLength(Base64UrlAlphabet, data);
  }

  // ---------------------------------------------------------------------------
  // base64 and base64url: decoding
  // ---------------------------------------------------------------------------

  /** std::find over `table`: the first position holding the octet `b`, or |table| when absent. */
  function IndexOf(table: seq<Char8>, b: Byte): (k: nat)
    ensures k <= |table|
    ensures k < |table| ==> table[k] as int == b as int
  {
    if table == [] || table[0] as int == b as int then 0 else 1 + IndexOf(table[1..], b)
  }

  /** No entry before the one std::find stops at holds the octet sought. */
  lemma {:induction false} IndexOfBefore(table: seq<Char8>, b: Byte, j: nat)
    requires j < IndexOf(table, b)
    ensures table[j] as int != b as int
  {
    if j > 0 {
      IndexOfBefore(table[1..], b, j - 1);
    }
  }

  /** The 6-bit value decode_base64_generic stores for a character: its position in the
      searched table cast to uint8_t, or 0xff when it is absent. */
  function Lookup(table: seq<Char8>, b: Byte): Byte
  {
    var k := IndexOf(table, b);
    if k == |table| then 0xff else (k % 256) as Byte
  }

  /** The three octets (a3) of four 6-bit values (a4), as decode_base64_generic computes them
      and stores them into uint8_t: (x0 << 2) + ((x1 & 0x30) >> 4),
      ((x1 & 0xf) << 4) + ((x2 & 0x3c) >> 2) and ((x2 & 0x3) << 6) + x3. */
  function Octet0(x0: Byte, x1: Byte): Byte
  {
    ((x0 as int * 4 + x1 as int / 16 % 4) % 256) as Byte
  }

  function Octet1(x1: Byte, x2: Byte): Byte
  {
    ((x1 as int % 16 * 16 + x2 as int / 4 % 16) % 256) as Byte
  }

  function Octet2(x2: Byte, x3: Byte): Byte
  {
    ((x2 as int % 4 * 64 + x3 as int) % 256) as Byte
  }

  /** The characters of `s` before its first '='. */
  function BeforePadding(s: seq<Char8>): (p: seq<Char8>)
    ensures |p| <= |s| && p == s[..|p|]
    ensures forall j :: 0 <= j < |p| ==> p[j] != '='
    ensures |p| < |s| ==> s[|p|] == '='
  {
    if s == [] || s[0] == '=' then [] else [s[0]] + BeforePadding(s[1..])
  }

  function DecodeGroup(table: seq<Char8>, c0: Char8, c1: Char8, c2: Char8, c3: Char8): seq<Byte>
  {
    var x0, x1 := Lookup(table, ToByte(c0)), Lookup(table, ToByte(c1));
    var x2, x3 := Lookup(table, ToByte(c2)), Lookup(table, ToByte(c3));
    [Octet0(x0, x1), Octet1(x1, x2), Octet2(x2, x3)]
  }

  /** The octets of the complete 4-character groups of `p`. */
  function DecodeGroups(table: seq<Char8>, p: seq<Char8>): seq<Byte>
    decreases |p|
  {
    if |p| < 4 then []
    else
      var n := |p|;
      DecodeGroups(table, p[..n - 4]) + DecodeGroup(table, p[n - 4], p[n - 3], p[n - 2], p[n - 1])
  }

  /** The octets of a final partial group of 0 to 3 characters: one fewer than characters, none for one. */
  function DecodeFinal(table: seq<Char8>, rest: seq<Char8>): (r: seq<Byte>)
    requires |rest| < 4
    ensures |r| == if |rest| == 0 then 0 else |rest| - 1
  {
    if |rest| <= 1 then []
    else
      var x0, x1 := Lookup(table, ToByte(rest[0])), Lookup(table, ToByte(rest[1]));
      if |rest| == 2 then [Octet0(x0, x1)]
      else [Octet0(x0, x1), Octet1(x1, Lookup(table, ToByte(rest[2])))]
  }

  /** Every character of `p` passes the validity test `f`. */
  predicate Accepted(p: seq<Char8>, f: Char8 -> bool)
  {
    forall j :: 0 <= j < |p| ==> f(p[j])
  }

  /** No character of `p` is the pad character '='. */
  predicate NoPad(p: seq<Char8>)
  {
    forall j :: 0 <= j < |p| ==> p[j] != '='
  }

  /**
   * What decode_base64_generic yields: "Invalid encoded string" when a character before
   * the first '=' fails the validity test `f`; otherwise the octets of those characters,
   * three per complete group of four and one fewer than the characters of a final group.
   */
  function Base64Decoded(s: seq<Char8>, table: seq<Char8>, f: Char8 -> bool): Result<seq<Byte>, InvalidArgument>
  {
    var p := BeforePadding(s);
    if !Accepted(p, f) then Failure(InvalidArgument("Invalid encoded string"))
    else
      var full := |p| - |p| % 4;
      Success(DecodeGroups(table, p[..full]) + DecodeFinal(table, p[full..]))
  }

  lemma {:induction false} DecodeGroupsStep(table: seq<Char8>, s: seq<Char8>, g: nat)
    requires 4 * g + 4 <= |s|
    ensures DecodeGroups(table, s[..4 * g + 4])
      == DecodeGroups(table, s[..4 * g]) + DecodeGroup(table, s[4 * g], s[4 * g + 1], s[4 * g + 2], s[4 * g + 3])
  {
    var q := s[..4 * g + 4];
    assert q[..|q| - 4] == s[..4 * g];
  }

  /** Every character before position `k`, none of them '=', lies before the padding. */
  lemma {:induction false} BeforePaddingCovers(s: seq<Char8>, k: nat)
    requires k <= |s| && forall j :: 0 <= j < k ==> s[j] != '='
    ensures k <= |BeforePadding(s)|
  {
    if k > 0 {
      assert s[0] != '=';
      BeforePaddingCovers(s[1..], k - 1);
    }
  }

  /** The characters before padding end at the first '=' or at the end of the text. */
  lemma {:induction false} BeforePaddingStops(s: seq<Char8>, k: nat)
    requires k <= |s| && (k == |s| || s[k] == '=')
    requires forall j :: 0 <= j < k ==> s[j] != '='
    ensures BeforePadding(s) == s[..k]
  {
    if k > 0 {
      BeforePaddingStops(s[1..], k - 1);
      assert s[..k] == [s[0]] + s[1..][..k - 1];
    }
  }

  /** The characters read so far, none of them '=' and all accepted, grow by one more such character. */
  lemma {:induction false} ReadStep(s: seq<Char8>, k: nat, f: Char8 -> bool)
    requires k < |s| && NoPad(s[..k]) && Accepted(s[..k], f)
    requires s[k] != '=' && f(s[k])
    ensures NoPad(s[..k + 1]) && Accepted(s[..k + 1], f)
  {
    assert s[..k + 1] == s[..k] + [s[k]];
  }

  /** A character before the first '=' that fails the validity test rejects the whole text. */
  lemma {:induction false} Base64Rejects(s: seq<Char8>, table: seq<Char8>, f: Char8 -> bool, k: nat)
    requires k < |s| && NoPad(s[..k]) && s[k] != '='
    requires !f(s[k])
    ensures Base64Decoded(s, table, f) == Failure(InvalidArgument("Invalid encoded string"))
  {
    assert forall j :: 0 <= j < k ==> s[..k][j] == s[j];
    BeforePaddingCovers(s, k + 1);
    assert BeforePadding(s)[k] == s[k];
  }

  /** The text up to the first '=' (or the end) decodes group by group. */
  lemma {:induction false} Base64Accepts(s: seq<Char8>, table: seq<Char8>, f: Char8 -> bool, g: nat, i: nat)
    requires i < 4 && 4 * g + i <= |s|
    requires 4 * g + i == |s| || s[4 * g + i] == '='
    requires NoPad(s[..4 * g + i]) && Accepted(s[..4 * g + i], f)
    ensures Base64Decoded(s, table, f)
      == Success(DecodeGroups(table, s[..4 * g]) + DecodeFinal(table, s[4 * g..4 * g + i]))
  {
    var k := 4 * g + i;
    assert forall j :: 0 <= j < k ==> s[..k][j] == s[j];
    BeforePaddingStops(s, k);
    var p := BeforePadding(s);
    DivMod(g, i, 4);
    assert |p| - |p| % 4 == 4 * g;
    assert p[..4 * g] == s[..4 * g];
    assert p[4 * g..] == s[4 * g..k];
  }

  /** The first |chars| entries of `a4` hold the octets of `chars`. */
  ghost predicate Holds(a4: array<Byte>, chars: seq<Char8>)
    reads a4
  {
    |chars| <= a4.Length && forall t :: 0 <= t < |chars| ==> a4[t] == ToByte(chars[t])
  }

  /**
   * The lookup loop decode_base64_generic runs over the first `n` entries of a4: each
   * raw character becomes its position in `table`, or 0xff.
   */
  method LookupSextets(a4: array<Byte>, n: nat, table: seq<Char8>)
    requires n <= a4.Length
    modifies a4
    ensures forall t :: 0 <= t < n ==> a4[t] == Lookup(table, old(a4[t]))
    ensures forall t :: n <= t < a4.Length ==> a4[t] == old(a4[t])
  {
    var i := 0;
    while i < n
      invariant 0 <= i <= n
      invariant forall t :: 0 <= t < i ==> a4[t] == Lookup(table, old(a4[t]))
      invariant forall t :: i <= t < a4.Length ==> a4[t] == old(a4[t])
    {
      var k := IndexOf(table, a4[i]);
      if k == |table| {
        a4[i] := 0xff;
      } else {
        a4[i] := (k % 256) as Byte;
      }
      i := i + 1;
    }
  }

  /** Appends the first `n` octets of a3 to the decoded bytes (`result.push_back(a3[j])`). */
  method PushOctets(a3: array<Byte>, n: nat, result: seq<Byte>) returns (result': seq<Byte>)
    requires n <= a3.Length
    ensures result' == result + a3[..n]
  {
    result' := result;
    var j := 0;
    while j < n
      invariant 0 <= j <= n
      invariant result' == result + a3[..j]
    {
      result' := result' + [a3[j]];
      j := j + 1;
    }
  }

  /**
   * One complete group of decode_base64_generic: the four characters held in a4 are
   * looked up, and the three octets they make are appended.
   */
  method DecodeGroupInto(a4: array<Byte>, a3: array<Byte>, table: seq<Char8>, result: seq<Byte>, ghost s: seq<Char8>, ghost g: nat)
    returns (result': seq<Byte>)
    requires a4.Length == 4 && a3.Length == 3 && 4 * g + 4 <= |s|
    requires Holds(a4, s[4 * g..4 * g + 4])
    requires result == DecodeGroups(table, s[..4 * g])
    modifies a4, a3
    ensures result' == DecodeGroups(table, s[..4 * g + 4])
  {
    ghost var chars := s[4 * g..4 * g + 4];
    ghost var octets := DecodeGroup(table, chars[0], chars[1], chars[2], chars[3]);
    assert a4[0] == ToByte(chars[0]) && a4[1] == ToByte(chars[1]) && a4[2] == ToByte(chars[2]) && a4[3] == ToByte(chars[3]);
    LookupSextets(a4, 4, table);
    a3[0] := Octet0(a4[0], a4[1]);
    a3[1] := Octet1(a4[1], a4[2]);
    a3[2] := Octet2(a4[2], a4[3]);
    assert a3[..3] == octets;
    result' := PushOctets(a3, 3, result);
    DecodeGroupsStep(table, s, g);
  }

  /**
   * The final group of decode_base64_generic, with `i` (one to three) characters held
   * in a4: they are looked up, and i-1 octets are appended.
   */
  method DecodeFinalInto(a4: array<Byte>, a3: array<Byte>, i: nat, table: seq<Char8>, result: seq<Byte>, ghost rest: seq<Char8>)
    returns (result': seq<Byte>)
    requires a4.Length == 4 && a3.Length == 3 && 1 <= i <= 3 && |rest| == i
    requires Holds(a4, rest)
    modifies a4, a3
    ensures result' == result + DecodeFinal(table, rest)
  {
    LookupSextets(a4, i, table);
    a3[0] := Octet0(a4[0], a4[1]);
    a3[1] := Octet1(a4[1], a4[2]);
    assert a3[..i - 1] == DecodeFinal(table, rest);
    result' := PushOctets(a3, i - 1, result);
  }

  /** Stores the next character of a group into a4 (`a4[i++] = *first`). */
  method Stash(a4: array<Byte>, i: nat, s: seq<Char8>, first: nat)
    requires i < a4.Length && i <= first < |s| && Holds(a4, s[first - i..first])
    modifies a4
    ensures Holds(a4, s[first - i..first + 1])
  {
    a4[i] := ToByte(s[first]);
    assert s[first - i..first + 1] == s[first - i..first] + [s[first]];
  }

  /** After the first '=' or the end of the text: the final group, when one to three characters are pending. */
  method DecodeTail(a4: array<Byte>, a3: array<Byte>, i: nat, table: seq<Char8>, result: seq<Byte>,
                    ghost s: seq<Char8>, ghost g: nat, ghost f: Char8 -> bool) returns (result': seq<Byte>)
    requires a4.Length == 4 && a3.Length == 3 && i < 4 && 4 * g + i <= |s|
    requires 4 * g + i == |s| || s[4 * g + i] == '='
    requires NoPad(s[..4 * g + i]) && Accepted(s[..4 * g + i], f)
    requires Holds(a4, s[4 * g..4 * g + i])
    requires result == DecodeGroups(table, s[..4 * g])
    modifies a4, a3
    ensures Base64Decoded(s, table, f) == Success(result')
  {
    Base64Accepts(s, table, f, g, i);
    ghost var rest := s[4 * g..4 * g + i];
    if i > 0 {
      result' := DecodeFinalInto(a4, a3, i, table, result, rest);
    } else {
      assert DecodeFinal(table, rest) == [];
      result' := result;
      assert result' == result + DecodeFinal(table, rest);
    }
  }

  /** Stores one more raw character into a4, decoding the group once four are held. */
  method StoreChar(a4: array<Byte>, a3: array<Byte>, i: nat, table: seq<Char8>, result: seq<Byte>,
                   s: seq<Char8>, first: nat, ghost groups: nat)
    returns (i': nat, result': seq<Byte>, ghost groups': nat)
    requires a4.Length == 4 && a3.Length == 3 && i < 4 && first == 4 * groups + i && first < |s|
    requires Holds(a4, s[4 * groups..first]) && result == DecodeGroups(table, s[..4 * groups])
    modifies a4, a3
    ensures i' < 4 && first + 1 == 4 * groups' + i'
    ensures Holds(a4, s[4 * groups'..first + 1]) && result' == DecodeGroups(table, s[..4 * groups'])
  {
    Stash(a4, i, s, first);
    i', result', groups' := i + 1, result, groups;
    if i' == 4 {
      result' := DecodeGroupInto(a4, a3, table, result, s, groups);
      i', groups' := 0, groups + 1;
    }
  }

  /**
   * decode_base64_generic: reads characters up to the end or the first '=', raising
   * invalid_argument for one that fails `f`; every fourth character decodes a complete
   * group; a final group of i characters yields i-1 octets.
   */
  method DecodeBase64Generic(s: seq<Char8>, table: seq<Char8>, f: Char8 -> bool) returns (r: Result<seq<Byte>, InvalidArgument>)
    ensures r == Base64Decoded(s, table, f)
  {
    var result: seq<Byte> := [];
    var a4 := new Byte[4];
    var a3 := new Byte[3];
    var i := 0;
    var first := 0;
    ghost var groups := 0;
    while first < |s| && s[first] != '='
      invariant 0 <= i < 4 && first == 4 * groups + i && first <= |s|
      invariant NoPad(s[..first]) && Accepted(s[..first], f)
      invariant Holds(a4, s[4 * groups..first])
      invariant result == DecodeGroups(table, s[..4 * groups])
    {
      if !f(s[first]) {
        Base64Rejects(s, table, f, first);
        return Failure(InvalidArgument("Invalid encoded string"));
      }
      ReadStep(s, first, f);
      i, result, groups := StoreChar(a4, a3, i, table, result, s, first, groups);
      first := first + 1;
    }
    result := DecodeTail(a4, a3, i, table, result, s, groups, f);
    return Success(result);
  }

  /** decode_base64: the standard alphabet, '=' included in the searched range, and is_base64. */
  method DecodeBase64(s: seq<Char8>) returns (r: Result<seq<Byte>, InvalidArgument>)
    ensures r == Base64Decoded(s, Base64Alphabet, IsBase64)
  {
    r := DecodeBase64Generic(s, Base64Alphabet, IsBase64);
  }

  /** decode_base64url: the URL-safe alphabet without its NUL, and is_base64url. */
  method DecodeBase64Url(s: seq<Char8>) returns (r: Result<seq<Byte>, InvalidArgument>)
    ensures r == Base64Decoded(s, Base64UrlAlphabet[..64], IsBase64Url)
  {
    Base64UrlAlphabetPad();
    r := DecodeBase64Generic(s, Base64UrlAlphabet[..64], IsBase64Url);
  }

  // ---------------------------------------------------------------------------
  // base64 and base64url: round trip
  // ---------------------------------------------------------------------------

  /** An encoding alphabet, a decoding table and a validity test that fit together: every
      digit is accepted and is not '=', the table starts with the digits in order, and its first
      64 entries are pairwise distinct. */
  ghost predicate Compatible(alphabet: seq<Char8>, table: seq<Char8>, f: Char8 -> bool)
  {
    && |alphabet| >= 65 && |table| >= 64
    && (alphabet[64] == '=' || alphabet[64] == '\0')
    && (forall v :: 0 <= v < 64 ==> alphabet[v] != '=' && f(alphabet[v]) && table[v] == alphabet[v])
    && (forall u, v :: 0 <= u < v < 64 ==> table[u] != table[v])
  }

  /** std::find finds a character at its position when no earlier entry equals it. */
  lemma {:induction false} IndexOfFirst(table: seq<Char8>, v: nat)
    requires v < |table|
    requires forall j :: 0 <= j < v ==> table[j] != table[v]
    ensures IndexOf(table, ToByte(table[v])) == v
  {
    var k := IndexOf(table, ToByte(table[v]));
    if v < k {
      IndexOfBefore(table, ToByte(table[v]), v);
    }
    assert table[k] == table[v];
  }

  /** The table maps every digit back to its 6-bit value. */
  lemma {:induction false} DigitLookup(alphabet: seq<Char8>, table: seq<Char8>, f: Char8 -> bool, v: nat)
    requires Compatible(alphabet, table, f) && v < 64
    ensures Lookup(table, ToByte(alphabet[v])) as int == v
  {
    IndexOfFirst(table, v);
  }

  /** The 64 digits of a table are pairwise distinct when the two table-specific characters are
      distinct and not alphanumeric. */
  lemma {:induction false} SextetCharDistinct(u: nat, v: nat, c62: Char8, c63: Char8)
    requires u < v < 64
    requires !IsAlnum(c62) && !IsAlnum(c63) && c62 != c63
    ensures SextetChar(u, c62, c63) != SextetChar(v, c62, c63)
  {
  }

  /** decode_base64 inverts encode_base64 on every digit of the standard alphabet. */
  lemma {:induction false} StandardCompatible()
    ensures Compatible(Base64Alphabet, Base64Alphabet, IsBase64)
  {
    Base64AlphabetTable();
    forall u, v | 0 <= u < v < 64
      ensures Base64Alphabet[u] != Base64Alphabet[v]
    {
      SextetCharDistinct(u, v, '+', '/');
    }
  }

  /** decode_base64url inverts encode_base64url on every digit of the URL-safe alphabet. */
  lemma {:induction false} UrlCompatible()
    ensures Compatible(Base64UrlAlphabet, Base64UrlAlphabet[..64], IsBase64Url)
  {
    Base64UrlAlphabetTable();
    var table := Base64UrlAlphabet[..64];
    forall u, v | 0 <= u < v < 64
      ensures table[u] != table[v]
    {
      SextetCharDistinct(u, v, '-', '_');
    }
  }

  /** The first octet of a group survives encoding and decoding. */
  lemma {:induction false} FirstOctetRoundTrip(b0: Byte, b1: Byte)
    ensures Octet0(Sextet0(b0), Sextet1(b0, b1)) == b0
  {
    var x0, x1 := b0 as int, b1 as int;
    DivMod(x0 % 4, x1 / 16, 16);
    assert Sextet1(b0, b1) as int / 16 % 4 == x0 % 4;
  }

  /** The second octet of a group survives encoding and decoding. */
  lemma {:induction false} SecondOctetRoundTrip(b0: Byte, b1: Byte, b2: Byte)
    ensures Octet1(Sextet1(b0, b1), Sextet2(b1, b2)) == b1
  {
    var x0, x1, x2 := b0 as int, b1 as int, b2 as int;
    DivMod(x0 % 4, x1 / 16, 16);
    DivMod(x1 % 16, x2 / 64, 4);
    assert Sextet1(b0, b1) as int % 16 == x1 / 16;
    assert Sextet2(b1, b2) as int / 4 % 16 == x1 % 16;
  }

  /** The third octet of a group survives encoding and decoding. */
  lemma {:induction false} ThirdOctetRoundTrip(b1: Byte, b2: Byte)
    ensures Octet2(Sextet2(b1, b2), Sextet3(b2)) == b2
  {
    var x1, x2 := b1 as int, b2 as int;
    DivMod(x1 % 16, x2 / 64, 4);
    assert Sextet2(b1, b2) as int % 4 == x2 / 64;
  }

  /** One complete group decodes to its three octets. */
  lemma {:induction false} GroupRoundTrip(alphabet: seq<Char8>, table: seq<Char8>, f: Char8 -> bool, b0: Byte, b1: Byte, b2: Byte)
    requires Compatible(alphabet, table, f)
    ensures var e := EncodeGroup(alphabet, b0, b1, b2);
      DecodeGroup(table, e[0], e[1], e[2], e[3]) == [b0, b1, b2]
  {
    DigitLookup(alphabet, table, f, Sextet0(b0) as int);
    DigitLookup(alphabet, table, f, Sextet1(b0, b1) as int);
    DigitLookup(alphabet, table, f, Sextet2(b1, b2) as int);
    DigitLookup(alphabet, table, f, Sextet3(b2) as int);
    FirstOctetRoundTrip(b0, b1);
    SecondOctetRoundTrip(b0, b1, b2);
    ThirdOctetRoundTrip(b1, b2);
  }

  /** The four characters of a group are digits, so they contain no '=' and pass the validity test. */
  lemma {:induction false} EncodeGroupDigits(alphabet: seq<Char8>, table: seq<Char8>, f: Char8 -> bool, b0: Byte, b1: Byte, b2: Byte)
    requires Compatible(alphabet, table, f)
    ensures var e := EncodeGroup(alphabet, b0, b1, b2); NoPad(e) && Accepted(e, f)
  {
    var e := EncodeGroup(alphabet, b0, b1, b2);
    forall j | 0 <= j < 4
      ensures e[j] != '=' && f(e[j])
    {
      var v := if j == 0 then Sextet0(b0) else if j == 1 then Sextet1(b0, b1)
               else if j == 2 then Sextet2(b1, b2) else Sextet3(b2);
      assert e[j] == alphabet[v as int];
    }
  }

  /** Complete groups are encoded into digits only, so they contain no '=' and pass the validity test. */
  lemma {:induction false} EncodeGroupsDigits(alphabet: seq<Char8>, table: seq<Char8>, f: Char8 -> bool, data: seq<Byte>)
    requires Compatible(alphabet, table, f)
    ensures NoPad(EncodeGroups(alphabet, data)) && Accepted(EncodeGroups(alphabet, data), f)
    decreases |data|
  {
    if |data| >= 3 {
      var n := |data|;
      var init := EncodeGroups(alphabet, data[..n - 3]);
      var last := EncodeGroup(alphabet, data[n - 3], data[n - 2], data[n - 1]);
      assert EncodeGroups(alphabet, data) == init + last;
      EncodeGroupsDigits(alphabet, table, f, data[..n - 3]);
      EncodeGroupDigits(alphabet, table, f, data[n - 3], data[n - 2], data[n - 1]);
      ConcatRead(init, last, f);
    }
  }

  /** Decoding the complete groups of 3·g octets gives the octets back. */
  lemma {:induction false} GroupsRoundTrip(alphabet: seq<Char8>, table: seq<Char8>, f: Char8 -> bool, data: seq<Byte>, g: nat)
    requires Compatible(alphabet, table, f) && |data| == 3 * g
    ensures DecodeGroups(table, EncodeGroups(alphabet, data)) == data
  {
    if g > 0 {
      var n := |data|;
      var init := data[..n - 3];
      assert data == init + [data[n - 3], data[n - 2], data[n - 1]];
      GroupsRoundTrip(alphabet, table, f, init, g - 1);
      EncodeGroupsLength(alphabet, init, g - 1);
      var e := EncodeGroups(alphabet, data);
      var last := EncodeGroup(alphabet, data[n - 3], data[n - 2], data[n - 1]);
      assert e == EncodeGroups(alphabet, init) + last;
      assert e[..|e| - 4] == EncodeGroups(alphabet, init);
      assert e[|e| - 4..] == last;
      GroupRoundTrip(alphabet, table, f, data[n - 3], data[n - 2], data[n - 1]);
    }
  }

  /** The characters of a final group are digits, so they contain no '=' and pass the validity test. */
  lemma {:induction false} FinalDigitsRead(alphabet: seq<Char8>, table: seq<Char8>, f: Char8 -> bool, rest: seq<Byte>)
    requires Compatible(alphabet, table, f) && 1 <= |rest| <= 2
    ensures NoPad(FinalDigits(alphabet, rest)) && Accepted(FinalDigits(alphabet, rest), f)
  {
    var b0 := rest[0];
    var b1: Byte := if |rest| == 2 then rest[1] else 0;
    var d := FinalDigits(alphabet, rest);
    var x0, x1, x2 := Sextet0(b0) as int, Sextet1(b0, b1) as int, Sextet2(b1, 0) as int;
    assert d[0] == alphabet[x0] && d[1] == alphabet[x1];
    assert |d| == 3 ==> d[2] == alphabet[x2];
    forall j | 0 <= j < |d|
      ensures d[j] != '=' && f(d[j])
    {
      if j == 0 {
      } else if j == 1 {
      } else {
      }
    }
  }

  /** A final group of one octet decodes to that octet. */
  lemma {:induction false} FinalOneRoundTrip(alphabet: seq<Char8>, table: seq<Char8>, f: Char8 -> bool, b0: Byte)
    requires Compatible(alphabet, table, f)
    ensures DecodeFinal(table, FinalDigits(alphabet, [b0])) == [b0]
  {
    var s0, s1 := Sextet0(b0), Sextet1(b0, 0);
    var d := FinalDigits(alphabet, [b0]);
    assert d == [alphabet[s0 as int], alphabet[s1 as int]];
    DigitLookup(alphabet, table, f, s0 as int);
    DigitLookup(alphabet, table, f, s1 as int);
    FirstOctetRoundTrip(b0, 0);
  }

  /** A final group of two octets decodes to those octets. */
  lemma {:induction false} FinalTwoRoundTrip(alphabet: seq<Char8>, table: seq<Char8>, f: Char8 -> bool, b0: Byte, b1: Byte)
    requires Compatible(alphabet, table, f)
    ensures DecodeFinal(table, FinalDigits(alphabet, [b0, b1])) == [b0, b1]
  {
    var s0, s1, s2 := Sextet0(b0), Sextet1(b0, b1), Sextet2(b1, 0);
    var d := FinalDigits(alphabet, [b0, b1]);
    assert d == [alphabet[s0 as int], alphabet[s1 as int], alphabet[s2 as int]];
    DigitLookup(alphabet, table, f, s0 as int);
    DigitLookup(alphabet, table, f, s1 as int);
    DigitLookup(alphabet, table, f, s2 as int);
    FirstOctetRoundTrip(b0, b1);
    SecondOctetRoundTrip(b0, b1, 0);
  }

  /** A final group of one or two octets decodes to those octets. */
  lemma {:induction false} FinalRoundTrip(alphabet: seq<Char8>, table: seq<Char8>, f: Char8 -> bool, rest: seq<Byte>)
    requires Compatible(alphabet, table, f) && 1 <= |rest| <= 2
    ensures DecodeFinal(table, FinalDigits(alphabet, rest)) == rest
  {
    if |rest| == 1 {
      assert rest == [rest[0]];
      FinalOneRoundTrip(alphabet, table, f, rest[0]);
    } else {
      assert rest == [rest[0], rest[1]];
      FinalTwoRoundTrip(alphabet, table, f, rest[0], rest[1]);
    }
  }

  /** Concatenation keeps both properties of the characters read. */
  lemma {:induction false} ConcatRead(a: seq<Char8>, b: seq<Char8>, f: Char8 -> bool)
    requires NoPad(a) && Accepted(a, f) && NoPad(b) && Accepted(b, f)
    ensures NoPad(a + b) && Accepted(a + b, f)
  {
    forall j | 0 <= j < |a + b|
      ensures (a + b)[j] != '=' && f((a + b)[j])
    {
      if j < |a| {
        assert (a + b)[j] == a[j];
      } else {
        assert (a + b)[j] == b[j - |a|];
      }
    }
  }

  /** An encoding of 3·g octets is the digits of its complete groups. */
  lemma {:induction false} EncodedGroupsOnly(alphabet: seq<Char8>, table: seq<Char8>, f: Char8 -> bool, data: seq<Byte>, g: nat)
    requires Compatible(alphabet, table, f) && |data| == 3 * g
    ensures var text := EncodeBase64Text(alphabet, data);
      && 4 * g == |text| && NoPad(text[..4 * g]) && Accepted(text[..4 * g], f)
      && text[..4 * g] == EncodeGroups(alphabet, data[..3 * g])
      && text[4 * g..4 * g] == []
  {
    var text := EncodeBase64Text(alphabet, data);
    EncodeTextSplit(alphabet, data, g, 0);
    EncodeGroupsLength(alphabet, data[..3 * g], g);
    EncodeGroupsDigits(alphabet, table, f, data[..3 * g]);
    assert text == EncodeGroups(alphabet, data[..3 * g]);
    assert text[..4 * g] == text;
  }

  /** An encoding of 3·g+i octets, 0 < i < 3, is the digits of its complete groups, the k-4·g = i+1
      digits of its final group, and padding that is either empty or starts with '='. */
  lemma {:induction false} EncodedFinalDigits(alphabet: seq<Char8>, table: seq<Char8>, f: Char8 -> bool, data: seq<Byte>, g: nat, k: nat)
    requires Compatible(alphabet, table, f) && 4 * g + 2 <= k <= 4 * g + 3 && |data| + 1 == 3 * g + (k - 4 * g)
    ensures var text := EncodeBase64Text(alphabet, data);
      && k <= |text| && (k == |text| || text[k] == '=')
      && NoPad(text[..k]) && Accepted(text[..k], f)
      && text[..4 * g] == EncodeGroups(alphabet, data[..3 * g])
      && text[4 * g..k] == FinalDigits(alphabet, data[3 * g..])
  {
    var text := EncodeBase64Text(alphabet, data);
    EncodeTextSplit(alphabet, data, g, k - 4 * g - 1);
    EncodeGroupsLength(alphabet, data[..3 * g], g);
    var groups := EncodeGroups(alphabet, data[..3 * g]);
    EncodeGroupsDigits(alphabet, table, f, data[..3 * g]);
    var rest := data[3 * g..];
    var digits := FinalDigits(alphabet, rest);
    var pad := Padding(alphabet[64], rest);
    FinalDigitsRead(alphabet, table, f, rest);
    ConcatRead(groups, digits, f);
    assert text == (groups + digits) + pad;
    assert text[..k] == groups + digits;
    assert text[..4 * g] == groups;
    assert text[4 * g..k] == digits;
    assert pad == [] || pad[0] == '=';
  }

  /** A text whose first k characters are digits that decode to `front` (4·g of them) and `back`,
      followed by padding, decodes to front + back. */
  lemma {:induction false} DecodeSplit(s: seq<Char8>, table: seq<Char8>, f: Char8 -> bool, g: nat, k: nat, front: seq<Byte>, back: seq<Byte>)
    requires 4 * g <= k < 4 * g + 4 && k <= |s|
    requires k == |s| || s[k] == '='
    requires NoPad(s[..k]) && Accepted(s[..k], f)
    requires DecodeGroups(table, s[..4 * g]) == front && DecodeFinal(table, s[4 * g..k]) == back
    ensures Base64Decoded(s, table, f) == Success(front + back)
  {
    var j := k - 4 * g;
    assert 4 * g + j == k;
    Base64Accepts(s, table, f, g, j);
  }

  /** Decoding an encoding of 3·g+i octets gives the octets back. */
  lemma {:induction false} RoundTripSplit(alphabet: seq<Char8>, table: seq<Char8>, f: Char8 -> bool, data: seq<Byte>, g: nat, i: nat)
    requires Compatible(alphabet, table, f) && i < 3 && |data| == 3 * g + i
    ensures Base64Decoded(EncodeBase64Text(alphabet, data), table, f) == Success(data)
  {
    var text := EncodeBase64Text(alphabet, data);
    var front, back := data[..3 * g], data[3 * g..];
    assert front + back == data;
    GroupsRoundTrip(alphabet, table, f, front, g);
    if i == 0 {
      EncodedGroupsOnly(alphabet, table, f, data, g);
      assert back == [];
      DecodeSplit(text, table, f, g, 4 * g, front, back);
    } else {
      var k := 4 * g + i + 1;
      EncodedFinalDigits(alphabet, table, f, data, g, k);
      FinalRoundTrip(alphabet, table, f, back);
      DecodeSplit(text, table, f, g, k, front, back);
    }
  }

  /** Decoding an encoding gives the octets back, for any compatible alphabet, table and test. */
  lemma {:induction false} RoundTrip(alphabet: seq<Char8>, table: seq<Char8>, f: Char8 -> bool, data: seq<Byte>)
    requires Compatible(alphabet, table, f)
    ensures Base64Decoded(EncodeBase64Text(alphabet, data), table, f) == Success(data)
  {
    RoundTripSplit(alphabet, table, f, data, |data| / 3, |data| % 3);
  }

  /** decode_base64(encode_base64(b)) == b. */
  lemma {:induction false} Base64RoundTrip(data: seq<Byte>)
    ensures Base64Decoded(EncodeBase64Text(Base64Alphabet, data), Base64Alphabet, IsBase64) == Success(data)
  {
    StandardCompatible();
    RoundTrip(Base64Alphabet, Base64Alphabet, IsBase64, data);
  }

  /** decode_base64url(encode_base64url(b)) == b. */
  lemma {:induction false} Base64UrlRoundTrip(data: seq<Byte>)
    ensures Base64Decoded(EncodeBase64Text(Base64UrlAlphabet, data), Base64UrlAlphabet[..64], IsBase64Url) == Success(data)
  {
    UrlCompatible();
    RoundTrip(Base64UrlAlphabet, Base64UrlAlphabet[..64], IsBase64Url, data);
  }
}
