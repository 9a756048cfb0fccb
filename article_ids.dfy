/** `generateArticleId(url)`: the UTF-8 bytes of the URL (`Buffer.from(url)`),
    Base64-encoded with the standard alphabet and `=` padding (section 4 of
    RFC 4648), every character outside `[a-zA-Z0-9]` deleted, and the first
    16 characters kept. */
module ArticleIds {
  import opened JsValues

  type byte = b: int | 0 <= b < 256

  // ---------------------------------------------------------------------
  // UTF-8 (RFC 3629).
  // ---------------------------------------------------------------------

  /** The UTF-8 bytes of one character. */
  function EncodeChar(c: char): (bs: seq<byte>)
    ensures 1 <= |bs| <= 4
    ensures |bs| == 1 <==> c as int < 0x80
  {
    var cp := c as int;
    if cp < 0x80 then [cp]
    else if cp < 0x800 then [0xC0 + cp / 64, 0x80 + cp % 64]
    else if cp < 0x1_0000 then [0xE0 + cp / 4096, 0x80 + (cp / 64) % 64, 0x80 + cp % 64]
    else [0xF0 + cp / 262144, 0x80 + (cp / 4096) % 64, 0x80 + (cp / 64) % 64, 0x80 + cp % 64]
  }

  /** `Buffer.from(s)`: the UTF-8 bytes of a string. */
  function Utf8Encode(s: string): (bs: seq<byte>)
    ensures |s| <= |bs| <= 4 * |s|
  {
    if s == [] then [] else EncodeChar(s[0]) + Utf8Encode(s[1..])
  }

  predicate IsContinuation(b: byte)
  {
    0x80 <= b < 0xC0
  }

  /** Reads one character off the front of `bs`: the character and the
      number of bytes it took, or nothing for a malformed sequence. */
  function DecodeChar(bs: seq<byte>): (r: Option<(char, nat)>)
    ensures r.Some? ==> 1 <= r.value.1 <= |bs|
  {
    if |bs| == 0 then None
    else if bs[0] < 0x80 then Some((bs[0] as char, 1))
    else if 0xC0 <= bs[0] < 0xE0 && |bs| >= 2 && IsContinuation(bs[1]) then
      var cp := (bs[0] as int - 0xC0) * 64 + (bs[1] as int - 0x80);
      if cp < 0x80 then None else Some((cp as char, 2))
    else if 0xE0 <= bs[0] < 0xF0 && |bs| >= 3 && IsContinuation(bs[1]) && IsContinuation(bs[2]) then
      var cp := (bs[0] as int - 0xE0) * 4096 + (bs[1] as int - 0x80) * 64 + (bs[2] as int - 0x80);
      if cp < 0x800 || (0xD800 <= cp < 0xE000) then None else Some((cp as char, 3))
    else if 0xF0 <= bs[0] < 0xF8 && |bs| >= 4 && IsContinuation(bs[1]) && IsContinuation(bs[2]) && IsContinuation(bs[3]) then
      var cp := (bs[0] as int - 0xF0) * 262144 + (bs[1] as int - 0x80) * 4096
              + (bs[2] as int - 0x80) * 64 + (bs[3] as int - 0x80);
      if cp < 0x1_0000 || cp > 0x10_FFFF then None else Some((cp as char, 4))
    else None
  }

  /** The string whose UTF-8 bytes are `bs`, if there is one. */
  function Utf8Decode(bs: seq<byte>): Option<string>
    decreases |bs|
  {
    if bs == [] then Some([])
    else match DecodeChar(bs)
      case None => None
      case Some((c, n)) =>
        match Utf8Decode(bs[n..])
        case None => None
        case Some(rest) => Some([c] + rest)
  }

  lemma DecodeEncodeChar(c: char, rest: seq<byte>)
    ensures DecodeChar(EncodeChar(c) + rest) == Some((c, |EncodeChar(c)|))
  {
    var cp := c as int;
    var bs := EncodeChar(c) + rest;
    if cp < 0x80 {
    } else if cp < 0x800 {
      assert (cp / 64) * 64 + cp % 64 == cp;
    } else if cp < 0x1_0000 {
      var q := cp / 64;
      assert q / 64 == cp / 4096;
      assert (cp / 4096) * 4096 + (q % 64) * 64 + cp % 64 == cp;
    } else {
      var q := cp / 64;
      var q2 := q / 64;
      assert q2 == cp / 4096;
      assert q2 / 64 == cp / 262144;
      assert (cp / 262144) * 262144 + (q2 % 64) * 4096 + (q % 64) * 64 + cp % 64 == cp;
    }
  }

  /** Decoding the UTF-8 bytes of a string gives the string back. */
  lemma {:induction false} Utf8RoundTrip(s: string)
    ensures Utf8Decode(Utf8Encode(s)) == Some(s)
  {
    if s != [] {
      var head := EncodeChar(s[0]);
      var bs := Utf8Encode(s);
      DecodeEncodeChar(s[0], Utf8Encode(s[1..]));
      assert bs[|head|..] == Utf8Encode(s[1..]);
      Utf8RoundTrip(s[1..]);
      assert s == [s[0]] + s[1..];
    }
  }

  lemma {:induction false} Utf8EncodeAppend(a: string, b: string)
    ensures Utf8Encode(a + b) == Utf8Encode(a) + Utf8Encode(b)
  {
    if a != [] {
      assert (a + b)[1..] == a[1..] + b;
      Utf8EncodeAppend(a[1..], b);
    } else {
      assert a + b == b;
    }
  }

  /** A string of ASCII characters is its own UTF-8 encoding. */
  lemma {:induction false} Utf8EncodeAscii(s: string)
    requires forall i :: 0 <= i < |s| ==> s[i] as int < 0x80
    ensures |Utf8Encode(s)| == |s|
    ensures forall i :: 0 <= i < |s| ==> Utf8Encode(s)[i] == s[i] as int
  {
    if s != [] {
      Utf8EncodeAscii(s[1..]);
    }
  }

  // ---------------------------------------------------------------------
  // Base64 (section 4 of RFC 4648).
  // ---------------------------------------------------------------------

  /** The character for a 6-bit value: `A`-`Z`, `a`-`z`, `0`-`9`, `+`, `/`. */
  function Sextet(i: nat): char
    requires i < 64
  {
    if i < 26 then ('A' as int + i) as char
    else if i < 52 then ('a' as int + i - 26) as char
    else if i < 62 then ('0' as int + i - 52) as char
    else if i == 62 then '+'
    else '/'
  }

  /** The 6-bit value of an alphabet character. */
  function SextetIndex(c: char): (r: Option<nat>)
    ensures r.Some? ==> r.value < 64 && Sextet(r.value) == c
  {
    if 'A' <= c <= 'Z' then Some(c as int - 'A' as int)
    else if 'a' <= c <= 'z' then Some(c as int - 'a' as int + 26)
    else if '0' <= c <= '9' then Some(c as int - '0' as int + 52)
    else if c == '+' then Some(62)
    else if c == '/' then Some(63)
    else None
  }

  lemma SextetIndexOfSextet(i: nat)
    requires i < 64
    ensures SextetIndex(Sextet(i)) == Some(i)
  {
  }

  /** Three bytes as four characters. */
  function EncodeGroup(b0: byte, b1: byte, b2: byte): string
  {
    [Sextet(b0 / 4), Sextet((b0 % 4) * 16 + b1 / 16), Sextet((b1 % 16) * 4 + b2 / 64), Sextet(b2 % 64)]
  }

  /** `buffer.toString('base64')`. */
  function Base64Encode(bs: seq<byte>): string
  {
    if |bs| == 0 then ""
    else if |bs| == 1 then [Sextet(bs[0] / 4), Sextet((bs[0] % 4) * 16), '=', '=']
    else if |bs| == 2 then [Sextet(bs[0] / 4), Sextet((bs[0] % 4) * 16 + bs[1] / 16), Sextet((bs[1] % 16) * 4), '=']
    else EncodeGroup(bs[0], bs[1], bs[2]) + Base64Encode(bs[3..])
  }

  /** Four characters for every started group of three bytes. */
  lemma {:induction false} Base64EncodeLength(bs: seq<byte>)
    ensures |Base64Encode(bs)| == 4 * ((|bs| + 2) / 3)
  {
    if |bs| >= 3 {
      Base64EncodeLength(bs[3..]);
      assert (|bs| + 2) / 3 == (|bs[3..]| + 2) / 3 + 1;
    }
  }

  /** The bytes a padded Base64 string stands for, if it is well formed. */
  function Base64Decode(s: string): Option<seq<byte>>
    decreases |s|
  {
    if |s| == 0 then Some([])
    else if |s| < 4 then None
    else
      var a, b, c, d := SextetIndex(s[0]), SextetIndex(s[1]), SextetIndex(s[2]), SextetIndex(s[3]);
      if a.None? || b.None? then None
      else if |s| == 4 && s[2] == '=' && s[3] == '=' then
        Some([a.value * 4 + b.value / 16])
      else if |s| == 4 && c.Some? && s[3] == '=' then
        Some([a.value * 4 + b.value / 16, (b.value % 16) * 16 + c.value / 4])
      else if c.None? || d.None? then None
      else
        match Base64Decode(s[4..])
        case None => None
        case Some(rest) =>
          Some([a.value * 4 + b.value / 16, (b.value % 16) * 16 + c.value / 4, (c.value % 4) * 64 + d.value] + rest)
  }

  /** Decoding the Base64 text of some bytes gives the bytes back. */
  lemma {:induction false} Base64RoundTrip(bs: seq<byte>)
    ensures Base64Decode(Base64Encode(bs)) == Some(bs)
    decreases |bs|
  {
    if |bs| == 1 {
      Base64RoundTripSingle(bs);
    } else if |bs| == 2 {
      Base64RoundTripPair(bs);
    } else if |bs| >= 3 {
      var t := Base64Encode(bs[3..]);
      assert Base64Encode(bs) == EncodeGroup(bs[0], bs[1], bs[2]) + t;
      Base64RoundTrip(bs[3..]);
      DecodeGroup(bs[0], bs[1], bs[2], t);
      assert bs == [bs[0], bs[1], bs[2]] + bs[3..];
    }
  }

  /** A full group decodes to its three bytes, followed by what the rest
      decodes to. */
  lemma DecodeGroup(b0: byte, b1: byte, b2: byte, t: string)
    ensures Base64Decode(EncodeGroup(b0, b1, b2) + t) ==
            match Base64Decode(t)
            case None => None
            case Some(rest) => Some([b0, b1, b2] + rest)
  {
    var s := EncodeGroup(b0, b1, b2) + t;
    var x, y := (b0 % 4) * 16 + b1 / 16, (b1 % 16) * 4 + b2 / 64;
    SextetIndexOfSextet(b0 / 4);
    SextetIndexOfSextet(x);
    SextetIndexOfSextet(y);
    SextetIndexOfSextet(b2 % 64);
    Recombine(b0, b1, b2);
    assert s[3] != '=';
    assert s[4..] == t;
  }

  lemma Recombine(b0: byte, b1: byte, b2: byte)
    ensures (b0 / 4) * 4 + ((b0 % 4) * 16 + b1 / 16) / 16 == b0
    ensures (((b0 % 4) * 16 + b1 / 16) % 16) * 16 + ((b1 % 16) * 4 + b2 / 64) / 4 == b1
    ensures (((b1 % 16) * 4 + b2 / 64) % 4) * 64 + b2 % 64 == b2
    ensures ((b1 % 16) * 4) / 4 == b1 % 16
  {
  }

  /** One trailing byte: two characters and `==`. */
  lemma Base64RoundTripSingle(bs: seq<byte>)
    requires |bs| == 1
    ensures Base64Decode(Base64Encode(bs)) == Some(bs)
  {
    SextetIndexOfSextet(bs[0] / 4);
    SextetIndexOfSextet((bs[0] % 4) * 16);
    Recombine(bs[0], 0, 0);
    assert bs == [bs[0]];
  }

  /** Two trailing bytes: three characters and one `=`. */
  lemma Base64RoundTripPair(bs: seq<byte>)
    requires |bs| == 2
    ensures Base64Decode(Base64Encode(bs)) == Some(bs)
  {
    var b0, b1 := bs[0], bs[1];
    var x := (b0 % 4) * 16 + b1 / 16;
    var y := (b1 % 16) * 4;
    var s := [Sextet(b0 / 4), Sextet(x), Sextet(y), '='];
    assert Base64Encode(bs) == s;
    assert Base64Decode(s) == Some([b0, b1]) by {
      DecodePadded(b0 / 4, x, y);
      RecombinePair(b0, b1);
    }
    assert bs == [b0, b1];
  }

  lemma RecombinePair(b0: byte, b1: byte)
    ensures (b0 / 4) * 4 + ((b0 % 4) * 16 + b1 / 16) / 16 == b0
    ensures (((b0 % 4) * 16 + b1 / 16) % 16) * 16 + ((b1 % 16) * 4) / 4 == b1
  {
  }

  /** Three alphabet characters and one `=` decode to two bytes. */
  lemma DecodePadded(i: nat, j: nat, k: nat)
    requires i < 64 && j < 64 && k < 64
    ensures Base64Decode([Sextet(i), Sextet(j), Sextet(k), '=']) == Some([i * 4 + j / 16, (j % 16) * 16 + k / 4])
  {
    SextetIndexOfSextet(i);
    SextetIndexOfSextet(j);
    SextetIndexOfSextet(k);
  }

  /** Whole groups of three bytes encode independently of what follows them. */
  lemma {:induction false} Base64EncodeSplit(bs: seq<byte>, n: nat)
    requires n <= |bs| && n % 3 == 0
    ensures Base64Encode(bs) == Base64Encode(bs[..n]) + Base64Encode(bs[n..])
    decreases n
  {
    if n > 0 {
      Base64EncodeSplit(bs[3..], n - 3);
      assert bs[3..][..n - 3] == bs[..n][3..];
      assert bs[3..][n - 3..] == bs[n..];
    } else {
      assert bs[..0] == [] && bs[0..] == bs;
    }
  }

  // ---------------------------------------------------------------------
  // The article id.
  // ---------------------------------------------------------------------

  predicate IsAlnum(c: char)
  {
    'a' <= c <= 'z' || 'A' <= c <= 'Z' || '0' <= c <= '9'
  }

  /** `s.replace(/[^a-zA-Z0-9]/g, '')`. */
  function KeepAlnum(s: string): (r: string)
    ensures |r| <= |s|
    ensures forall i :: 0 <= i < |r| ==> IsAlnum(r[i])
  {
    if s == [] then ""
    else if IsAlnum(s[0]) then [s[0]] + KeepAlnum(s[1..])
    else KeepAlnum(s[1..])
  }

  lemma {:induction false} KeepAlnumAppend(a: string, b: string)
    ensures KeepAlnum(a + b) == KeepAlnum(a) + KeepAlnum(b)
  {
    if a != [] {
      assert (a + b)[1..] == a[1..] + b;
      KeepAlnumAppend(a[1..], b);
    } else {
      assert a + b == b;
    }
  }

  /** `s.substring(0, n)`. */
  function Prefix(s: string, n: nat): string
  {
    if |s| <= n then s else s[..n]
  }

  /** `generateArticleId(url)`: at most 16 characters, all letters or digits. */
  function ArticleId(url: string): (id: string)
    ensures |id| <= 16
    ensures forall i :: 0 <= i < |id| ==> IsAlnum(id[i])
  {
    Prefix(KeepAlnum(Base64Encode(Utf8Encode(url))), 16)
  }

  /** The id depends on the first 12 bytes of the URL only, whenever their
      Base64 text (16 characters) has no `+` or `/` in it. */
  lemma ArticleIdDeterminedByPrefix(u: string, v: string)
    requires |Utf8Encode(u)| >= 12 && |Utf8Encode(v)| >= 12
    requires Utf8Encode(u)[..12] == Utf8Encode(v)[..12]
    requires |KeepAlnum(Base64Encode(Utf8Encode(u)[..12]))| == 16
    ensures ArticleId(u) == ArticleId(v)
    ensures ArticleId(u) == KeepAlnum(Base64Encode(Utf8Encode(u)[..12]))
  {
    var bu, bv := Utf8Encode(u), Utf8Encode(v);
    Base64EncodeSplit(bu, 12);
    Base64EncodeSplit(bv, 12);
    KeepAlnumAppend(Base64Encode(bu[..12]), Base64Encode(bu[12..]));
    KeepAlnumAppend(Base64Encode(bv[..12]), Base64Encode(bv[12..]));
  }

  /** Every URL that starts with `https://www.` gets one and the same id:
      the Base64 text of those 12 characters. */
  lemma WwwUrlsShareOneId(u: string)
    requires |u| >= 12 && u[..12] == "https://www."
    ensures ArticleId(u) == "aHR0cHM6Ly93d3cu"
  {
    var p, rest := u[..12], u[12..];
    assert u == p + rest;
    WwwPrefixBase64(p);
    Utf8EncodeAppend(p, rest);
    assert Utf8Encode(u)[..12] == Utf8Encode(p);
    WwwIdIsAlnum();
    ArticleIdDeterminedByPrefix(u, u);
  }

  lemma WwwIdIsAlnum()
    ensures KeepAlnum("aHR0cHM6Ly93d3cu") == "aHR0cHM6Ly93d3cu"
  {
    var id := "aHR0cHM6Ly93d3cu";
    assert forall i :: 0 <= i < |id| ==> IsAlnum(id[i]);
    KeepAlnumOfAlnum(id);
  }

  lemma WwwPrefixBase64(p: string)
    requires p == "https://www."
    ensures |Utf8Encode(p)| == 12
    ensures Base64Encode(Utf8Encode(p)) == "aHR0cHM6Ly93d3cu"
  {
    Utf8EncodeAscii(p);
    WwwBytesBase64(Utf8Encode(p));
  }

  /** The Base64 text of the bytes of `https://www.`. */
  lemma WwwBytesBase64(bs: seq<byte>)
    requires |bs| == 12
    requires bs[0] == 0x68 && bs[1] == 0x74 && bs[2] == 0x74 && bs[3] == 0x70 && bs[4] == 0x73 && bs[5] == 0x3A
    requires bs[6] == 0x2F && bs[7] == 0x2F && bs[8] == 0x77 && bs[9] == 0x77 && bs[10] == 0x77 && bs[11] == 0x2E
    ensures Base64Encode(bs) == "aHR0cHM6Ly93d3cu"
  {
    Base64OfTwelve(bs);
    assert EncodeGroup(0x68, 0x74, 0x74) == "aHR0";
    assert EncodeGroup(0x70, 0x73, 0x3A) == "cHM6";
    assert EncodeGroup(0x2F, 0x2F, 0x77) == "Ly93";
    assert EncodeGroup(0x77, 0x77, 0x2E) == "d3cu";
  }

  /** Twelve bytes are four groups of three. */
  lemma Base64OfTwelve(bs: seq<byte>)
    requires |bs| == 12
    ensures Base64Encode(bs) == EncodeGroup(bs[0], bs[1], bs[2]) + EncodeGroup(bs[3], bs[4], bs[5])
                              + EncodeGroup(bs[6], bs[7], bs[8]) + EncodeGroup(bs[9], bs[10], bs[11])
  {
    assert bs[3..][3..][3..][3..] == [];
    assert Base64Encode(bs[9..]) == EncodeGroup(bs[9], bs[10], bs[11]);
    assert Base64Encode(bs[6..]) == EncodeGroup(bs[6], bs[7], bs[8]) + Base64Encode(bs[9..]) by { assert bs[6..][3..] == bs[9..]; }
    assert Base64Encode(bs[3..]) == EncodeGroup(bs[3], bs[4], bs[5]) + Base64Encode(bs[6..]) by { assert bs[3..][3..] == bs[6..]; }
  }

  lemma {:induction false} KeepAlnumOfAlnum(s: string)
    requires forall i :: 0 <= i < |s| ==> IsAlnum(s[i])
    ensures KeepAlnum(s) == s
  {
    if s != [] {
      KeepAlnumOfAlnum(s[1..]);
    }
  }
}
