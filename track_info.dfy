/**
 * `TrackInfo`: the description of a track, whose codec name is decoded from
 * the codec's four-character code.  Every field is read-only, so a track
 * description is a value.
 */
module TrackInfo {

  import opened Wrappers

  // ---------------------------------------------------------------------------
  // Bytes of the four-character code

  /** `x >> 8`: an arithmetic shift, which is division by 256 rounding down. */
  function Shr8(x: int): int
  {
    x / 256
  }

  /**
   * `(byte)codec`, `(byte)(codec >> 8)`, `(byte)(codec >> 16)` and
   * `(byte)(codec >> 24)`: the casts keep the low eight bits, so negative
   * codes wrap around as two's complement.
   */
  function CodeBytes(codec: int): (b: seq<int>)
    ensures |b| == 4
    ensures forall i :: 0 <= i < 4 ==> 0 <= b[i] < 256
  {
    [codec % 256, Shr8(codec) % 256, Shr8(Shr8(codec)) % 256, Shr8(Shr8(Shr8(codec))) % 256]
  }

  /** `ASCIIEncoding.GetString` of one byte: a byte above 127 becomes `?`. */
  function AsciiChar(b: int): (c: char)
    requires 0 <= b < 256
    ensures (c as int) < 128
    ensures b < 128 ==> c as int == b
  {
    if b < 128 then b as char else '?'
  }

  function AsciiString(bytes: seq<int>): (s: string)
    requires forall i :: 0 <= i < |bytes| ==> 0 <= bytes[i] < 256
    ensures |s| == |bytes|
    ensures forall i :: 0 <= i < |s| ==> s[i] == AsciiChar(bytes[i])
  {
    seq(|bytes|, i requires 0 <= i < |bytes| => AsciiChar(bytes[i]))
  }

  // ---------------------------------------------------------------------------
  // `String.Trim`

  /**
   * `Char.IsWhiteSpace` on the characters below 128, the only ones the
   * decoder produces: tab to carriage return, and space.
   */
  predicate IsWhiteSpace(c: char)
  {
    '\t' <= c <= '\r' || c == ' '
  }

  /** Drops the leading white space: what remains is a suffix that starts with something else. */
  function TrimStart(s: string): (r: string)
    ensures |r| <= |s| && r == s[|s| - |r|..]
    ensures forall k :: 0 <= k < |s| - |r| ==> IsWhiteSpace(s[k])
    ensures r != [] ==> !IsWhiteSpace(r[0])
  {
    if s != [] && IsWhiteSpace(s[0]) then TrimStart(s[1..]) else s
  }

  /** Drops the trailing white space: what remains is a prefix that ends with something else. */
  function TrimEnd(s: string): (r: string)
    ensures |r| <= |s| && r == s[..|r|]
    ensures forall k :: |r| <= k < |s| ==> IsWhiteSpace(s[k])
    ensures r != [] ==> !IsWhiteSpace(r[|r| - 1])
  {
    if s != [] && IsWhiteSpace(s[|s| - 1]) then TrimEnd(s[..|s| - 1]) else s
  }

  function Trim(s: string): (r: string)
    ensures |r| <= |s|
    ensures r != [] ==> !IsWhiteSpace(r[0]) && !IsWhiteSpace(r[|r| - 1])
  {
    TrimEnd(TrimStart(s))
  }

  /** Text that neither starts nor ends with white space is left as it is. */
  lemma TrimUntouched(s: string)
    requires s != [] ==> !IsWhiteSpace(s[0]) && !IsWhiteSpace(s[|s| - 1])
    ensures Trim(s) == s
  {
  }

  // ---------------------------------------------------------------------------
  // The codec name

  /** `codecName`: null for code 0, otherwise the four bytes as ASCII text, trimmed. */
  function CodecName(codec: int): (r: Option<string>)
    ensures r.None? <==> codec == 0
    ensures r.Some? ==> |r.value| <= 4
    ensures r.Some? ==> forall i :: 0 <= i < |r.value| ==> (r.value[i] as int) < 128
  {
    if codec != 0 then Some(Trim(AsciiString(CodeBytes(codec)))) else None
  }

  /** The four-character code of four characters below 128, lowest byte first. */
  function FourCC(s: string): int
    requires |s| == 4 && forall i :: 0 <= i < 4 ==> (s[i] as int) < 128
  {
    s[0] as int + 256 * (s[1] as int + 256 * (s[2] as int + 256 * (s[3] as int)))
  }

  lemma DivMod256(lo: int, hi: int)
    requires 0 <= lo < 256
    ensures (lo + 256 * hi) % 256 == lo
    ensures Shr8(lo + 256 * hi) == hi
  {
  }

  /** The bytes taken from a four-character code are its characters, in order. */
  lemma CodeBytesFourCC(s: string)
    requires |s| == 4 && forall i :: 0 <= i < 4 ==> (s[i] as int) < 128
    ensures forall i :: 0 <= i < 4 ==> CodeBytes(FourCC(s))[i] == s[i] as int
  {
    var a, b, c, d := s[0] as int, s[1] as int, s[2] as int, s[3] as int;
    DivMod256(a, b + 256 * (c + 256 * d));
    DivMod256(b, c + 256 * d);
    DivMod256(c, d);
    DivMod256(d, 0);
  }

  /**
   * A four-character code whose first and last characters are not white
   * space decodes back to its characters.
   */
  lemma CodecNameFourCC(s: string)
    requires |s| == 4 && forall i :: 0 <= i < 4 ==> (s[i] as int) < 128
    requires !IsWhiteSpace(s[0]) && !IsWhiteSpace(s[3])
    requires FourCC(s) != 0
    ensures CodecName(FourCC(s)) == Some(s)
  {
    CodeBytesFourCC(s);
    assert AsciiString(CodeBytes(FourCC(s))) == s;
    TrimUntouched(s);
  }

  /** A code padded with spaces, as `"mp3 "`, decodes to the name without the padding. */
  lemma CodecNamePadded(s: string)
    requires |s| == 3 && forall i :: 0 <= i < 3 ==> (s[i] as int) < 128
    requires !IsWhiteSpace(s[0]) && !IsWhiteSpace(s[2])
    ensures CodecName(FourCC(s + " ")) == Some(s)
  {
    var t := s + " ";
    CodeBytesFourCC(t);
    assert AsciiString(CodeBytes(FourCC(t))) == t;
    assert TrimStart(t) == t;
    assert t[..3] == s;
  }

  // ---------------------------------------------------------------------------
  // The track description

  datatype TrackInfo = TrackInfo(codec: int, codecName: Option<string>, id: int, profile: int, level: int)

  /** The constructor: `Codec`, `Id`, `Profile` and `Level` return its arguments. */
  function NewTrackInfo(codec: int, id: int, profile: int, level: int): (t: TrackInfo)
    ensures t.codec == codec && t.id == id && t.profile == profile && t.level == level
    ensures t.codecName.None? <==> codec == 0
  {
    TrackInfo(codec, CodecName(codec), id, profile, level)
  }
}
