/** The base 64 encoding of section 4 of RFC 4648, as Python's `b64encode`
    produces it (standard alphabet, `=` padding, no line breaks), with the
    decoder that inverts it, and the ASCII codec `str.encode("ascii")` /
    `bytes.decode("ascii")` that surrounds it in the scripts. */
module Base64 {
  import opened Wrappers

  newtype byte = x: int | 0 <= x < 256

  /** Table 1 of RFC 4648: the character of a 6-bit value. */
  function Sextet(i: int): (c: char)
    requires 0 <= i < 64
    ensures c != '='
  {
    if i < 26 then ('A' as int + i) as char
    else if i < 52 then ('a' as int + i - 26) as char
    else if i < 62 then ('0' as int + i - 52) as char
    else if i == 62 then '+'
    else '/'
  }

  /** The 6-bit value of an alphabet character. */
  function Index(c: char): Option<int>
  {
    if 'A' <= c <= 'Z' then Some(c as int - 'A' as int)
    else if 'a' <= c <= 'z' then Some(c as int - 'a' as int + 26)
    else if '0' <= c <= '9' then Some(c as int - '0' as int + 52)
    else if c == '+' then Some(62)
    else if c == '/' then Some(63)
    else None
  }

  lemma IndexSextet(i: int)
    requires 0 <= i < 64
    ensures Index(Sextet(i)) == Some(i)
  {
  }

  /** Every 6-bit value has its own character. */
  lemma SextetInjective(i: int, j: int)
    requires 0 <= i < 64 && 0 <= j < 64 && Sextet(i) == Sextet(j)
    ensures i == j
  {
    IndexSextet(i);
    IndexSextet(j);
  }

  /** One group: three bytes become four characters, fewer bytes are padded
      with `=` to four characters. */
  function EncodeGroup(g: seq<byte>): (r: seq<char>)
    requires 1 <= |g| <= 3
    ensures |r| == 4
  {
    var b0 := g[0] as int;
    var b1 := if |g| > 1 then g[1] as int else 0;
    var b2 := if |g| > 2 then g[2] as int else 0;
    [Sextet(b0 / 4), Sextet((b0 % 4) * 16 + b1 / 16)]
    + (if |g| > 1 then [Sextet((b1 % 16) * 4 + b2 / 64)] else ['='])
    + (if |g| > 2 then [Sextet(b2 % 64)] else ['='])
  }

  /** `b64encode`. */
  function Encode(bs: seq<byte>): (r: seq<char>)
    ensures |r| == 4 * ((|bs| + 2) / 3)
    decreases |bs|
  {
    if bs == [] then []
    else if |bs| <= 3 then EncodeGroup(bs)
    else EncodeGroup(bs[..3]) + Encode(bs[3..])
  }

  /** Four characters back to the one to three bytes they encode; padding is
      accepted only where the encoder writes it, with zero unused bits. */
  function DecodeGroup(q: seq<char>): Option<seq<byte>>
    requires |q| == 4
  {
    var i0, i1 := Index(q[0]), Index(q[1]);
    if i0.None? || i1.None? then None
    else
      var b0 := (i0.value * 4 + i1.value / 16) as byte;
      if q[2] == '=' && q[3] == '=' then
        if i1.value % 16 == 0 then Some([b0]) else None
      else
        var i2 := Index(q[2]);
        if i2.None? then None
        else
          var b1 := ((i1.value % 16) * 16 + i2.value / 4) as byte;
          if q[3] == '=' then
            if i2.value % 4 == 0 then Some([b0, b1]) else None
          else
            var i3 := Index(q[3]);
            if i3.None? then None
            else Some([b0, b1, ((i2.value % 4) * 64 + i3.value) as byte])
  }

  /** `b64decode` of canonical input: only the last group may be padded. */
  function Decode(s: seq<char>): Option<seq<byte>>
    decreases |s|
  {
    if s == [] then Some([])
    else if |s| < 4 then None
    else
      match DecodeGroup(s[..4])
      case None => None
      case Some(g) =>
        if |g| < 3 && |s| > 4 then None
        else
          match Decode(s[4..])
          case None => None
          case Some(rest) => Some(g + rest)
  }

  lemma GroupRoundTrip(g: seq<byte>)
    requires 1 <= |g| <= 3
    ensures DecodeGroup(EncodeGroup(g)) == Some(g)
  {
    var b0 := g[0] as int;
    var b1 := if |g| > 1 then g[1] as int else 0;
    var b2 := if |g| > 2 then g[2] as int else 0;
    var i0, i1, i2, i3 := b0 / 4, (b0 % 4) * 16 + b1 / 16, (b1 % 16) * 4 + b2 / 64, b2 % 64;
    IndexSextet(i0);
    IndexSextet(i1);
    IndexSextet(i2);
    IndexSextet(i3);
    assert i1 / 16 == b0 % 4 && i1 % 16 == b1 / 16;
    assert i2 / 4 == b1 % 16 && i2 % 4 == b2 / 64;
    assert i0 * 4 + i1 / 16 == b0;
    assert (i1 % 16) * 16 + i2 / 4 == b1;
    assert (i2 % 4) * 64 + i3 == b2;
    if |g| == 1 {
      assert g == [b0 as byte];
    } else if |g| == 2 {
      assert g == [b0 as byte, b1 as byte];
    } else {
      assert g == [b0 as byte, b1 as byte, b2 as byte];
    }
  }

  /** Decoding undoes encoding, for every byte string. */
  lemma {:induction false} EncodeDecode(bs: seq<byte>)
    ensures Decode(Encode(bs)) == Some(bs)
    decreases |bs|
  {
    if bs != [] {
      if |bs| <= 3 {
        GroupRoundTrip(bs);
        assert Encode(bs)[..4] == EncodeGroup(bs);
        assert Encode(bs)[4..] == [];
        assert bs + [] == bs;
      } else {
        var e := Encode(bs);
        GroupRoundTrip(bs[..3]);
        EncodeDecode(bs[3..]);
        assert e[..4] == EncodeGroup(bs[..3]);
        assert e[4..] == Encode(bs[3..]);
        assert bs[..3] + bs[3..] == bs;
      }
    }
  }

  /** The encoding uses only the alphabet and the pad character. */
  lemma {:induction false} EncodeAlphabet(bs: seq<byte>)
    ensures forall i :: 0 <= i < |Encode(bs)| ==> Encode(bs)[i] == '=' || Index(Encode(bs)[i]).Some?
    decreases |bs|
  {
    if |bs| > 3 {
      EncodeAlphabet(bs[3..]);
      var g := EncodeGroup(bs[..3]);
      forall i | 0 <= i < |Encode(bs)| ensures Encode(bs)[i] == '=' || Index(Encode(bs)[i]).Some? {
        if i >= 4 {
          assert Encode(bs)[i] == Encode(bs[3..])[i - 4];
        }
      }
    }
    if bs != [] {
      var b0 := bs[0] as int;
      var b1 := if |bs| > 1 then bs[1] as int else 0;
      var b2 := if |bs| > 2 then bs[2] as int else 0;
      IndexSextet(b0 / 4);
      IndexSextet((b0 % 4) * 16 + b1 / 16);
      IndexSextet((b1 % 16) * 4 + b2 / 64);
      IndexSextet(b2 % 64);
    }
  }

  // ---------------------------------------------------------------- ASCII

  /** `s.encode("ascii")`: None where it raises `UnicodeEncodeError`. */
  function AsciiBytes(s: string): (r: Option<seq<byte>>)
    ensures r.Some? <==> forall i :: 0 <= i < |s| ==> s[i] as int < 128
    ensures r.Some? ==> |r.value| == |s| && forall i :: 0 <= i < |s| ==> r.value[i] as int == s[i] as int
    decreases |s|
  {
    if s == [] then Some([])
    else if s[0] as int >= 128 then None
    else
      match AsciiBytes(s[1..])
      case None => None
      case Some(rest) => Some([s[0] as int as byte] + rest)
  }

  /** `bs.decode("ascii")` of bytes below 128. */
  function AsciiText(bs: seq<byte>): (s: string)
    requires forall i :: 0 <= i < |bs| ==> bs[i] < 128
    ensures |s| == |bs| && forall i :: 0 <= i < |bs| ==> s[i] as int == bs[i] as int
  {
    seq(|bs|, i requires 0 <= i < |bs| => bs[i] as int as char)
  }

  /** ASCII text survives encoding to bytes and decoding back. */
  lemma AsciiRoundTrip(s: string)
    requires AsciiBytes(s).Some?
    ensures AsciiText(AsciiBytes(s).value) == s
  {
  }
}
