/** Percent-encoding of a provider path segment and the request paths built from it. */
module PathEncoding {
  import opened Base
  import opened Catalog

  type Byte = b: int | 0 <= b < 256

  /** The unreserved characters of section 2.3 of RFC 3986. */
  predicate IsUnreserved(b: int)
  {
    || '0' as int <= b <= '9' as int || 'A' as int <= b <= 'Z' as int || 'a' as int <= b <= 'z' as int
    || b == '-' as int || b == '_' as int || b == '.' as int || b == '~' as int
  }

  lemma UnreservedMeans(b: Byte)
    ensures IsUnreserved(b) <==>
            b as char in {'A', 'B', 'C', 'D', 'E', 'F', 'G', 'H', 'I', 'J', 'K', 'L', 'M', 'N', 'O', 'P', 'Q',
                          'R', 'S', 'T', 'U', 'V', 'W', 'X', 'Y', 'Z', 'a', 'b', 'c', 'd', 'e', 'f', 'g', 'h',
                          'i', 'j', 'k', 'l', 'm', 'n', 'o', 'p', 'q', 'r', 's', 't', 'u', 'v', 'w', 'x', 'y',
                          'z', '0', '1', '2', '3', '4', '5', '6', '7', '8', '9', '-', '.', '_', '~'}
  {
  }

  function HexDigit(v: int): char
    requires 0 <= v < 16
  {
    if v <= 9 then ('0' as int + v) as char else ('A' as int + (v - 10)) as char
  }

  function EncodeByte(b: Byte): string
  {
    if IsUnreserved(b) then [b as char] else ['%', HexDigit(b / 16), HexDigit(b % 16)]
  }

  ghost function Encode(value: seq<Byte>): string
  {
    if value == [] then "" else EncodeByte(value[0]) + Encode(value[1..])
  }

  method PercentEncodePathSegment(value: seq<Byte>) returns (encoded: string)
    ensures encoded == Encode(value)
  {
    encoded := "";
    for i := 0 to |value|
      invariant encoded == Encode(value[..i])
    {
      var b := value[i];
      EncodeAppend(value[..i], b);
      assert value[..i + 1] == value[..i] + [b];
      if IsUnreserved(b) {
        encoded := encoded + [b as char];
      } else {
        encoded := encoded + ['%'];
        encoded := encoded + [HexDigit(b / 16)];
        encoded := encoded + [HexDigit(b % 16)];
      }
    }
    assert value[..|value|] == value;
  }

  lemma {:induction false} EncodeAppend(s: seq<Byte>, b: Byte)
    ensures Encode(s + [b]) == Encode(s) + EncodeByte(b)
  {
    if s == [] {
      assert [] + [b] == [b] && [b][1..] == [];
    } else {
      assert (s + [b])[1..] == s[1..] + [b];
      EncodeAppend(s[1..], b);
    }
  }

  // ---------- the inverse ----------

  function HexValue(c: char): Option<int>
  {
    if '0' <= c <= '9' then Some(c as int - '0' as int)
    else if 'A' <= c <= 'F' then Some(c as int - 'A' as int + 10)
    else None
  }

  /** The byte an uppercase triplet (section 2.1 of RFC 3986) stands for, if it needs a triplet. */
  function TripletByte(high: char, low: char): Option<Byte>
  {
    var h, l := HexValue(high), HexValue(low);
    if h.Some? && l.Some? && 0 <= h.value * 16 + l.value < 256 && !IsUnreserved(h.value * 16 + l.value)
    then Some(h.value * 16 + l.value) else None
  }

  /** Reads unreserved characters and uppercase triplets, and nothing else. */
  function Decode(text: string): Option<seq<Byte>>
  {
    if text == "" then Some([])
    else if text[0] == '%' then
      if |text| < 3 || TripletByte(text[1], text[2]).None? then None
      else
        var rest := Decode(text[3..]);
        if rest.None? then None else Some([TripletByte(text[1], text[2]).value] + rest.value)
    else if !IsUnreserved(text[0] as int) then None
    else
      var rest := Decode(text[1..]);
      if rest.None? then None else Some([text[0] as int] + rest.value)
  }

  lemma HexRoundTrip(b: Byte)
    ensures HexValue(HexDigit(b / 16)) == Some(b / 16) && HexValue(HexDigit(b % 16)) == Some(b % 16)
    ensures !IsUnreserved(b) ==> TripletByte(HexDigit(b / 16), HexDigit(b % 16)) == Some(b)
  {}

  lemma {:induction false} DecodeEncode(value: seq<Byte>)
    ensures Decode(Encode(value)) == Some(value)
  {
    if value == [] {
    } else {
      var b, rest := value[0], Encode(value[1..]);
      DecodeEncode(value[1..]);
      HexRoundTrip(b);
      var text := EncodeByte(b) + rest;
      assert text[|EncodeByte(b)|..] == rest;
      assert value == [b] + value[1..];
    }
  }

  lemma TripletRoundTrip(high: char, low: char)
    requires TripletByte(high, low).Some?
    ensures EncodeByte(TripletByte(high, low).value) == ['%', high, low]
  {}

  lemma {:induction false} EncodeDecode(text: string)
    requires Decode(text).Some?
    ensures Encode(Decode(text).value) == text
  {
    if text == "" {
    } else {
      var value, n := Decode(text).value, if text[0] == '%' then 3 else 1;
      if text[0] == '%' { TripletRoundTrip(text[1], text[2]); }
      EncodeDecode(text[n..]);
      assert value[1..] == Decode(text[n..]).value;
      assert text == text[..n] + text[n..];
      assert text[..n] == EncodeByte(value[0]);
    }
  }

  /** Encoding is a bijection onto the texts made of unreserved characters and uppercase triplets. */
  lemma EncodingIsExact(value: seq<Byte>, text: string)
    ensures Decode(text) == Some(value) <==> text == Encode(value)
  {
    DecodeEncode(value);
    if Decode(text) == Some(value) { EncodeDecode(text); }
  }

  lemma {:induction false} OnlyUnreservedAndPercent(value: seq<Byte>)
    ensures forall c :: c in Encode(value) ==> IsUnreserved(c as int) || c == '%'
  {
    if value == [] {
    } else {
      OnlyUnreservedAndPercent(value[1..]);
      assert forall c :: c in EncodeByte(value[0]) ==> IsUnreserved(c as int) || c == '%';
    }
  }

  // ---------- request paths ----------

  const GEMINI_PREFIX := "models/"
  const GEMINI_SUFFIX := ":generateContent"

  ghost function ProviderRequestPath(family: ProtocolFamily, upstreamModelId: seq<Byte>): string
  {
    match family
    case OpenAiResponses => "responses"
    case OpenAiChat => "chat/completions"
    case AnthropicMessages => "messages"
    case GeminiGenerateContent => GEMINI_PREFIX + Encode(upstreamModelId) + GEMINI_SUFFIX
    case BedrockConverse => "model/invoke"
    case ProviderNative => "native/invoke"
  }

  /** Only the Gemini path depends on the model id; the others are fixed. */
  lemma FixedPaths(family: ProtocolFamily, id: seq<Byte>)
    ensures ProviderRequestPath(family, id)
         == if family == OpenAiResponses then "responses"
            else if family == OpenAiChat then "chat/completions"
            else if family == AnthropicMessages then "messages"
            else if family == BedrockConverse then "model/invoke"
            else if family == ProviderNative then "native/invoke"
            else "models/" + Encode(id) + ":generateContent"
  {
  }

  /** The segment between the fixed parts of a Gemini path, decoded. */
  function RecoverModelId(path: string): Option<seq<Byte>>
  {
    var n, m := |GEMINI_PREFIX|, |GEMINI_SUFFIX|;
    if |path| < n + m || path[..n] != GEMINI_PREFIX || path[|path| - m..] != GEMINI_SUFFIX then None
    else Decode(path[n..|path| - m])
  }

  /** The upstream model id is recoverable from the path, and the id adds no separator of its own to it. */
  lemma ModelIdRecoverable(id: seq<Byte>)
    ensures RecoverModelId(ProviderRequestPath(GeminiGenerateContent, id)) == Some(id)
    ensures '/' !in Encode(id) && ':' !in Encode(id) && '?' !in Encode(id) && '#' !in Encode(id)
  {
    var path := ProviderRequestPath(GeminiGenerateContent, id);
    assert path[..|GEMINI_PREFIX|] == GEMINI_PREFIX;
    assert path[|path| - |GEMINI_SUFFIX|..] == GEMINI_SUFFIX;
    assert path[|GEMINI_PREFIX|..|path| - |GEMINI_SUFFIX|] == Encode(id);
    DecodeEncode(id);
    OnlyUnreservedAndPercent(id);
  }
}
