/** The query string of the component-code request: `encodeURIComponent` on the
    sending side (percent-encoding, section 2.1 of RFC 3986) and the
    `application/x-www-form-urlencoded` parser behind `URLSearchParams.get` on the
    receiving side (section 5.1 of the WHATWG URL Standard). Both work on the UTF-8
    bytes of the text. */
module FormUrlEncoding {
  import opened Wrappers
  import Utf8

  type Byte = Utf8.Byte

  const Percent: Byte := 0x25
  const Plus: Byte := 0x2B
  const Space: Byte := 0x20
  const Ampersand: Byte := 0x26
  const EqualsSign: Byte := 0x3D

  /** The bytes `encodeURIComponent` leaves as they are:
      A-Z, a-z, 0-9 and `-` `_` `.` `!` `~` `*` `'` `(` `)`. */
  predicate IsUnreserved(b: Byte) {
    (0x41 <= b <= 0x5A) || (0x61 <= b <= 0x7A) || (0x30 <= b <= 0x39) ||
    b == 0x2D || b == 0x5F || b == 0x2E || b == 0x21 || b == 0x7E || b == 0x2A ||
    b == 0x27 || b == 0x28 || b == 0x29
  }

  predicate IsHexDigit(b: Byte) {
    (0x30 <= b <= 0x39) || (0x41 <= b <= 0x46) || (0x61 <= b <= 0x66)
  }

  /** The upper-case hexadecimal digit `encodeURIComponent` writes for `n`. */
  function HexDigit(n: int): (b: Byte)
    requires 0 <= n < 16
    ensures IsHexDigit(b)
  {
    if n < 10 then 0x30 + n else 0x41 + (n - 10)
  }

  function HexValue(b: Byte): (n: int)
    requires IsHexDigit(b)
    ensures 0 <= n < 16
  {
    if b <= 0x39 then b - 0x30 else if b <= 0x46 then b - 0x41 + 10 else b - 0x61 + 10
  }

  /** Every byte that is not unreserved becomes `%` and two upper-case hex digits. */
  function PercentEncodeBytes(bs: seq<Byte>): (r: seq<Byte>)
    ensures forall i :: 0 <= i < |r| ==> IsUnreserved(r[i]) || r[i] == Percent || IsHexDigit(r[i])
    decreases |bs|
  {
    if bs == [] then []
    else
      (if IsUnreserved(bs[0]) then [bs[0]] else [Percent, HexDigit(bs[0] / 16), HexDigit(bs[0] % 16)])
      + PercentEncodeBytes(bs[1..])
  }

  /** `encodeURIComponent(s)`. Its result is ASCII text, given here as its bytes. */
  function EncodeURIComponent(s: string): seq<Byte> {
    PercentEncodeBytes(Utf8.Encode(s))
  }

  /** Percent-decoding: `%` followed by two hex digits is the byte they spell;
      any other byte, a lone `%` included, is kept. */
  function PercentDecode(bs: seq<Byte>): seq<Byte>
    decreases |bs|
  {
    if bs == [] then []
    else if bs[0] == Percent && |bs| >= 3 && IsHexDigit(bs[1]) && IsHexDigit(bs[2]) then
      [HexValue(bs[1]) * 16 + HexValue(bs[2])] + PercentDecode(bs[3..])
    else [bs[0]] + PercentDecode(bs[1..])
  }

  /** Every `+` becomes a space. */
  function ReplacePlus(bs: seq<Byte>): (r: seq<Byte>)
    ensures |r| == |bs|
    ensures forall i :: 0 <= i < |bs| ==> r[i] == if bs[i] == Plus then Space else bs[i]
  {
    seq(|bs|, i requires 0 <= i < |bs| => if bs[i] == Plus then Space else bs[i])
  }

  /** The pieces of `bs` between occurrences of `sep`, empty ones included. */
  function SplitOn(bs: seq<Byte>, sep: Byte): (pieces: seq<seq<Byte>>)
    ensures |pieces| >= 1
    decreases |bs|
  {
    if bs == [] then [[]]
    else if bs[0] == sep then [[]] + SplitOn(bs[1..], sep)
    else
      var rest := SplitOn(bs[1..], sep);
      [[bs[0]] + rest[0]] + rest[1..]
  }

  /** The index of the first `b` in `bs`, or `|bs|` when there is none. */
  function FirstIndex(bs: seq<Byte>, b: Byte): (k: nat)
    ensures k <= |bs|
    ensures forall i :: 0 <= i < k ==> bs[i] != b
    ensures k < |bs| ==> bs[k] == b
    decreases |bs|
  {
    if bs == [] then 0 else if bs[0] == b then 0 else 1 + FirstIndex(bs[1..], b)
  }

  datatype Pair = Pair(name: string, value: string)

  /** Replace `+`, percent-decode, then UTF-8 decode. */
  function DecodeComponent(bs: seq<Byte>): string {
    Utf8.Decode(PercentDecode(ReplacePlus(bs)))
  }

  /** One non-empty `&`-separated piece: the name is what precedes its first `=`,
      the value what follows it (empty when there is no `=`). */
  function ParsePair(piece: seq<Byte>): Pair {
    var k := FirstIndex(piece, EqualsSign);
    Pair(DecodeComponent(piece[..k]), DecodeComponent(if k < |piece| then piece[k + 1..] else []))
  }

  function ParsePieces(pieces: seq<seq<Byte>>): seq<Pair>
    decreases |pieces|
  {
    if pieces == [] then []
    else (if pieces[0] == [] then [] else [ParsePair(pieces[0])]) + ParsePieces(pieces[1..])
  }

  /** The application/x-www-form-urlencoded parser: the list of name-value pairs. */
  function Parse(input: seq<Byte>): seq<Pair> {
    ParsePieces(SplitOn(input, Ampersand))
  }

  /** `URLSearchParams.get(name)`: the value of the first pair with that name, or null. */
  function GetParam(pairs: seq<Pair>, name: string): (r: Option<string>)
    ensures r.Some? <==> exists i :: 0 <= i < |pairs| && pairs[i].name == name
    ensures r.Some? ==> exists i :: 0 <= i < |pairs| && pairs[i].name == name && pairs[i].value == r.value &&
                                    forall j :: 0 <= j < i ==> pairs[j].name != name
    decreases |pairs|
  {
    if pairs == [] then None
    else if pairs[0].name == name then Some(pairs[0].value)
    else
      var r := GetParam(pairs[1..], name);
      assert forall i :: 1 <= i < |pairs| ==> pairs[i] == pairs[1..][i - 1];
      r
  }

  const ParamName: string := "path"

  /** The query the code view sends: `path=` followed by `encodeURIComponent(componentPath)`. */
  function RequestQuery(componentPath: string): seq<Byte> {
    Utf8.Encode(ParamName + "=") + EncodeURIComponent(componentPath)
  }

  // ---------------------------------------------------------------------------

  /** Percent-decoding undoes percent-encoding, byte for byte. */
  lemma {:induction false} PercentDecodeEncode(bs: seq<Byte>)
    ensures PercentDecode(PercentEncodeBytes(bs)) == bs
    decreases |bs|
  {
    if bs != [] {
      var b := bs[0];
      var rest := PercentEncodeBytes(bs[1..]);
      PercentDecodeEncode(bs[1..]);
      if IsUnreserved(b) {
        assert ([b] + rest)[1..] == rest;
      } else {
        var e := [Percent, HexDigit(b / 16), HexDigit(b % 16)];
        assert (e + rest)[3..] == rest;
        assert HexValue(HexDigit(b / 16)) * 16 + HexValue(HexDigit(b % 16)) == b;
      }
      assert bs == [bs[0]] + bs[1..];
    }
  }

  /** What `encodeURIComponent` writes never holds `&`, `=` or `+`: the pieces of the
      form syntax, and the `+` that the parser would read as a space. */
  lemma EncodedHasNoSyntax(s: string)
    ensures forall i :: 0 <= i < |EncodeURIComponent(s)| ==>
      EncodeURIComponent(s)[i] != Ampersand && EncodeURIComponent(s)[i] != EqualsSign &&
      EncodeURIComponent(s)[i] != Plus
  {
  }

  lemma {:induction false} SplitOnWithout(bs: seq<Byte>, sep: Byte)
    requires forall i :: 0 <= i < |bs| ==> bs[i] != sep
    ensures SplitOn(bs, sep) == [bs]
    decreases |bs|
  {
    if bs != [] {
      SplitOnWithout(bs[1..], sep);
      assert bs == [bs[0]] + bs[1..];
    }
  }

  lemma ReplacePlusWithout(bs: seq<Byte>)
    requires forall i :: 0 <= i < |bs| ==> bs[i] != Plus
    ensures ReplacePlus(bs) == bs
  {
  }

  const ParamNameBytes: seq<Byte> := [0x70, 0x61, 0x74, 0x68]

  lemma QueryPrefix()
    ensures Utf8.Encode(ParamName + "=") == ParamNameBytes + [EqualsSign]
    ensures Utf8.Encode(ParamName) == ParamNameBytes
  {
    Utf8.EncodeAscii(ParamName + "=");
    Utf8.EncodeAscii(ParamName);
  }

  /** The value part decodes back to the text that was encoded. */
  lemma DecodeEncodedComponent(s: string)
    ensures DecodeComponent(EncodeURIComponent(s)) == s
  {
    EncodedHasNoSyntax(s);
    ReplacePlusWithout(EncodeURIComponent(s));
    PercentDecodeEncode(Utf8.Encode(s));
    Utf8.DecodeEncode(s);
  }

  lemma DecodeParamName()
    ensures DecodeComponent(ParamNameBytes) == ParamName
  {
    ReplacePlusWithout(ParamNameBytes);
    PercentDecodeAscii(ParamNameBytes);
    QueryPrefix();
    Utf8.DecodeEncode(ParamName);
  }

  /** A query with no `&` is a single piece. */
  lemma ParseSingle(q: seq<Byte>)
    requires q != [] && forall i :: 0 <= i < |q| ==> q[i] != Ampersand
    ensures Parse(q) == [ParsePair(q)]
  {
    SplitOnWithout(q, Ampersand);
    assert ParsePieces([q]) == [ParsePair(q)] + ParsePieces([]);
  }

  lemma ParseNameValue(value: seq<Byte>)
    ensures ParsePair(ParamNameBytes + [EqualsSign] + value) ==
            Pair(DecodeComponent(ParamNameBytes), DecodeComponent(value))
  {
    var q := ParamNameBytes + [EqualsSign] + value;
    assert q[0] == 0x70 && q[1] == 0x61 && q[2] == 0x74 && q[3] == 0x68 && q[4] == EqualsSign;
    assert FirstIndex(q, EqualsSign) == 4;
    assert q[..4] == ParamNameBytes;
    assert q[5..] == value;
  }

  /** `searchParams.get('path')` on the query the code view builds returns the
      component path exactly, whatever characters it holds: `+`, space, `&`, `=`, `%`
      and non-ASCII characters are all percent-encoded on the way out. */
  lemma QueryRoundTrip(componentPath: string)
    ensures GetParam(Parse(RequestQuery(componentPath)), ParamName) == Some(componentPath)
  {
    var enc := EncodeURIComponent(componentPath);
    var q := RequestQuery(componentPath);
    QueryPrefix();
    assert q == ParamNameBytes + [EqualsSign] + enc;
    EncodedHasNoSyntax(componentPath);
    assert forall i :: 0 <= i < |q| ==> q[i] != Ampersand by {
      forall i | 0 <= i < |q| ensures q[i] != Ampersand {
        if i >= 5 { assert q[i] == enc[i - 5]; }
      }
    }
    ParseSingle(q);
    ParseNameValue(enc);
    DecodeParamName();
    DecodeEncodedComponent(componentPath);
  }

  /** Bytes with no `%` are left alone by percent-decoding. */
  lemma {:induction false} PercentDecodeAscii(bs: seq<Byte>)
    requires forall i :: 0 <= i < |bs| ==> bs[i] != Percent
    ensures PercentDecode(bs) == bs
    decreases |bs|
  {
    if bs != [] {
      PercentDecodeAscii(bs[1..]);
      assert bs == [bs[0]] + bs[1..];
    }
  }
}
