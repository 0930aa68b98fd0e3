/** The `Codec` registry of decode_kit.py and its one concrete codec, hex.

    `Codec.ENCODERS` and `Codec.DECODERS` are class-level dictionaries that
    `register` changes in place; here they are the two map fields of a
    `Codec` object. A table entry is a `Coder`: the function, as a value, and
    whether `char_sets` is among the names in its `__code__.co_varnames`
    (its parameters and its local variables), which decides whether
    `encode`/`decode` pass the character set on. */
module DecodeKit {
  import opened Wrappers
  import Strings

  type byte = x: int | 0 <= x < 256

  /** What `encode` and `decode` accept and return: a `str` or a `dict`. */
  datatype Data = Text(text: string) | Dict(entries: map<string, string>)

  /** What calling an encoder or decoder does: it returns, or raises with a message. */
  datatype CallOutcome = Returned(value: Data) | Threw(message: string)

  /** A table entry. `run(data, Some(cs))` is `f(data, cs)`, `run(data, None)` is `f(data)`. */
  datatype Coder = Coder(run: (Data, Option<string>) -> CallOutcome, takesCharSets: bool)

  datatype Direction = Encoding | Decoding

  /** The reasons a `CodecError` is raised. */
  datatype CodecError =
    | UnsupportedCodec(codec: string, available: set<string>)
    | DictInputOnly(direction: Direction)
    | CallFailed(direction: Direction, cause: string)

  /** A character set: `str.encode(name)` and `bytes.decode(name)`, each of
      which may fail. */
  datatype Charset = Charset(encode: string -> Option<seq<byte>>, decode: seq<byte> -> Option<string>)

  /** Decoding what a character set encoded gives back the text. */
  ghost predicate Lawful(cs: Charset)
  {
    forall s :: cs.encode(s).Some? ==> cs.decode(cs.encode(s).value) == Some(s)
  }

  /** Calls the entry as `encode`/`decode` do: with `char_sets` when the
      function's `co_varnames` holds that name, without it otherwise. */
  function Invoke(c: Coder, data: Data, charSets: string): CallOutcome
  {
    if c.takesCharSets then c.run(data, Some(charSets)) else c.run(data, None)
  }

  /** What `encode`/`decode` make of a call: its value, or a CodecError
      carrying the message of whatever it raised. */
  function Wrap(o: CallOutcome, dir: Direction): (r: Result<Data, CodecError>)
    ensures r.Success? <==> o.Returned?
    ensures o.Returned? ==> r.value == o.value
    ensures o.Threw? ==> r.error == CallFailed(dir, o.message)
  {
    match o
    case Returned(v) => Success(v)
    case Threw(m) => Failure(CallFailed(dir, m))
  }

  /** The body shared by `Codec.encode` and `Codec.decode`: look the name up
      in lower case, reject exactly `'dict'` with non-dict data, call the
      function, and turn whatever it raises into a CodecError. */
  function Dispatch(table: map<string, Coder>, data: Data, codec: string, charSets: string, dir: Direction)
    : (r: Result<Data, CodecError>)
    ensures Strings.Lower(codec) !in table ==> r == Failure(UnsupportedCodec(codec, table.Keys))
    ensures r == Failure(DictInputOnly(dir)) <==>
      Strings.Lower(codec) in table && codec == "dict" && !data.Dict?
    ensures Strings.Lower(codec) in table && (codec != "dict" || data.Dict?) ==>
      r == Wrap(Invoke(table[Strings.Lower(codec)], data, charSets), dir)
  {
    var key := Strings.Lower(codec);
    if key !in table then Failure(UnsupportedCodec(codec, table.Keys))
    else if codec == "dict" && !data.Dict? then Failure(DictInputOnly(dir))
    else Wrap(Invoke(table[key], data, charSets), dir)
  }

  /** The names of the five built-in codecs. */
  const BuiltinNames: set<string> := {"base64", "percent", "hex", "unicode", "dict"}

  class Codec {
    var encoders: map<string, Coder>
    var decoders: map<string, Coder>

    /** The tables as the class defines them. base64, percent-encoding,
        unicode_escape and the JSON dict codec come from the standard library
        and are given as entries; hex is built from the character sets. */
    constructor (base64: (Coder, Coder), percent: (Coder, Coder), unicode: (Coder, Coder), dict: (Coder, Coder),
                 charsets: string -> Charset, defaultCharSet: string)
      ensures encoders.Keys == BuiltinNames && decoders.Keys == BuiltinNames
      ensures encoders["hex"] == HexEncoder(charsets, defaultCharSet)
      ensures decoders["hex"] == HexDecoder(charsets, defaultCharSet)
      ensures encoders["base64"] == base64.0 && decoders["base64"] == base64.1
      ensures encoders["percent"] == percent.0 && decoders["percent"] == percent.1
      ensures encoders["unicode"] == unicode.0 && decoders["unicode"] == unicode.1
      ensures encoders["dict"] == dict.0 && decoders["dict"] == dict.1
    {
      encoders := map[
        "base64" := base64.0, "percent" := percent.0, "hex" := HexEncoder(charsets, defaultCharSet),
        "unicode" := unicode.0, "dict" := dict.0];
      decoders := map[
        "base64" := base64.1, "percent" := percent.1, "hex" := HexDecoder(charsets, defaultCharSet),
        "unicode" := unicode.1, "dict" := dict.1];
    }

    /** `Codec.encode(data, codec, char_sets)`. */
    function Encode(data: Data, codec: string, charSets: string): (r: Result<Data, CodecError>)
      reads this
      ensures Strings.Lower(codec) !in encoders ==> r == Failure(UnsupportedCodec(codec, encoders.Keys))
      ensures r == Failure(DictInputOnly(Encoding)) <==>
        Strings.Lower(codec) in encoders && codec == "dict" && !data.Dict?
      ensures Strings.Lower(codec) in encoders && (codec != "dict" || data.Dict?) ==>
        r == Wrap(Invoke(encoders[Strings.Lower(codec)], data, charSets), Encoding)
    {
      Dispatch(encoders, data, codec, charSets, Encoding)
    }

    /** `Codec.decode(data, codec, char_sets)`. */
    function Decode(data: Data, codec: string, charSets: string): (r: Result<Data, CodecError>)
      reads this
      ensures Strings.Lower(codec) !in decoders ==> r == Failure(UnsupportedCodec(codec, decoders.Keys))
      ensures r == Failure(DictInputOnly(Decoding)) <==>
        Strings.Lower(codec) in decoders && codec == "dict" && !data.Dict?
      ensures Strings.Lower(codec) in decoders && (codec != "dict" || data.Dict?) ==>
        r == Wrap(Invoke(decoders[Strings.Lower(codec)], data, charSets), Decoding)
    {
      Dispatch(decoders, data, codec, charSets, Decoding)
    }

    /** `Codec.register(name, encoder, decoder)`: stores both under the
        lower-cased name, replacing what was there, and leaves every other
        name as it was. */
    method Register(name: string, encoder: Coder, decoder: Coder)
      modifies this
      ensures encoders == old(encoders)[Strings.Lower(name) := encoder]
      ensures decoders == old(decoders)[Strings.Lower(name) := decoder]
    {
      encoders := encoders[Strings.Lower(name) := encoder];
      decoders := decoders[Strings.Lower(name) := decoder];
    }
  }

  // ----- Properties of dispatch -----

  /** Lookup ignores case: two names with the same lower-case form select
      the same entry, unless one of them is exactly 'dict' and the data is
      not a dict. */
  lemma CaseInsensitiveLookup(c: Codec, data: Data, a: string, b: string, charSets: string)
    requires Strings.Lower(a) == Strings.Lower(b)
    requires data.Dict? || (a != "dict" && b != "dict")
    ensures c.Encode(data, a, charSets) == c.Encode(data, b, charSets) || Strings.Lower(a) !in c.encoders
    ensures c.Decode(data, a, charSets) == c.Decode(data, b, charSets) || Strings.Lower(a) !in c.decoders
  {
  }

  /** After `register(name, e, d)`, `encode` and `decode` under any casing of
      the name call `e` and `d` (the 'dict' input check aside). */
  lemma RegisteredDispatch(c: Codec, name: string, e: Coder, d: Coder, data: Data, codec: string, charSets: string)
    requires c.encoders[Strings.Lower(name) := e] == c.encoders
    requires c.decoders[Strings.Lower(name) := d] == c.decoders
    requires Strings.Lower(codec) == Strings.Lower(name)
    requires codec != "dict" || data.Dict?
    ensures c.Encode(data, codec, charSets) == Wrap(Invoke(e, data, charSets), Encoding)
    ensures c.Decode(data, codec, charSets) == Wrap(Invoke(d, data, charSets), Decoding)
  {
    assert Strings.Lower(name) in c.encoders[Strings.Lower(name) := e];
    assert Strings.Lower(name) in c.decoders[Strings.Lower(name) := d];
  }

  /** A name as `register` stored it, used again as the codec name, reaches
      the stored entries: lower-casing the stored key changes nothing. */
  lemma StoredKeyDispatch(c: Codec, name: string, data: Data, charSets: string)
    requires Strings.Lower(name) in c.encoders && Strings.Lower(name) in c.decoders
    requires Strings.Lower(name) != "dict" || data.Dict?
    ensures c.Encode(data, Strings.Lower(name), charSets)
         == Wrap(Invoke(c.encoders[Strings.Lower(name)], data, charSets), Encoding)
    ensures c.Decode(data, Strings.Lower(name), charSets)
         == Wrap(Invoke(c.decoders[Strings.Lower(name)], data, charSets), Decoding)
  {
    Strings.LowerIdempotent(name);
  }

  lemma LowerDict()
    ensures Strings.Lower("DICT") == "dict" && Strings.Lower("dict") == "dict"
  {
    assert Strings.Lower("DICT") == ['d', 'i', 'c', 't'];
  }

  /** The 'dict' input check is case-sensitive, unlike the lookup: 'dict'
      with text raises CodecError before the dict encoder runs, while 'DICT'
      hands the text to that encoder. */
  lemma DictCheckIsCaseSensitive(c: Codec, s: string, charSets: string)
    requires "dict" in c.encoders && "dict" in c.decoders
    ensures c.Encode(Text(s), "dict", charSets) == Failure(DictInputOnly(Encoding))
    ensures c.Decode(Text(s), "dict", charSets) == Failure(DictInputOnly(Decoding))
    ensures c.Encode(Text(s), "DICT", charSets) == Wrap(Invoke(c.encoders["dict"], Text(s), charSets), Encoding)
  {
    LowerDict();
  }

  /** An entry pair that undoes itself. */
  ghost predicate Inverse(e: Coder, d: Coder)
  {
    forall x, cs :: Invoke(e, x, cs).Returned? ==> Invoke(d, Invoke(e, x, cs).value, cs) == Returned(x)
  }

  /** Round trip: for a name whose entries are inverse, decoding what `encode`
      produced gives the data back. */
  lemma RoundTrip(c: Codec, data: Data, codec: string, charSets: string)
    requires Strings.Lower(codec) in c.encoders && Strings.Lower(codec) in c.decoders
    requires Inverse(c.encoders[Strings.Lower(codec)], c.decoders[Strings.Lower(codec)])
    requires c.Encode(data, codec, charSets).Success?
    requires codec != "dict" || c.Encode(data, codec, charSets).value.Dict?
    ensures c.Decode(c.Encode(data, codec, charSets).value, codec, charSets) == Success(data)
  {
  }

  // ----- The hex codec -----

  const HexDigits: string := "0123456789abcdef"

  /** `bytes.hex()`: two lower-case hex digits per byte. */
  function ToHex(bytes: seq<byte>): (s: string)
    ensures |s| == 2 * |bytes|
    ensures forall i :: 0 <= i < |s| ==> s[i] in HexDigits
  {
    if bytes == [] then ""
    else [HexDigits[bytes[0] / 16], HexDigits[bytes[0] % 16]] + ToHex(bytes[1..])
  }

  /** The value of a hex digit of either case. */
  function HexValue(c: char): (v: Option<int>)
    ensures v.Some? ==> 0 <= v.value < 16
  {
    if '0' <= c <= '9' then Some(c as int - '0' as int)
    else if 'a' <= c <= 'f' then Some(c as int - 'a' as int + 10)
    else if 'A' <= c <= 'F' then Some(c as int - 'A' as int + 10)
    else None
  }

  /** The ASCII white space `bytes.fromhex` skips between byte pairs. */
  predicate IsAsciiSpace(c: char)
  {
    c == ' ' || c == '\t' || c == '\n' || c == '\r' || c as int == 11 || c as int == 12
  }

  /** `bytes.fromhex(s)`: pairs of hex digits, white space allowed between
      pairs; anything else fails. */
  function FromHex(s: string): (r: Option<seq<byte>>)
    ensures r.Some? ==> 2 * |r.value| <= |s|
    decreases |s|
  {
    if |s| == 0 then Some([])
    else if IsAsciiSpace(s[0]) then FromHex(s[1..])
    else if |s| >= 2 && HexValue(s[0]).Some? && HexValue(s[1]).Some? then
      match FromHex(s[2..])
      case None => None
      case Some(rest) => Some([(HexValue(s[0]).value * 16 + HexValue(s[1]).value) as byte] + rest)
    else None
  }

  lemma HexDigitValue(n: int)
    requires 0 <= n < 16
    ensures HexValue(HexDigits[n]) == Some(n) && !IsAsciiSpace(HexDigits[n])
  {
  }

  /** One step of `FromHex` over a leading pair of digits. */
  lemma FromHexPair(a: char, b: char, t: string)
    requires HexValue(a).Some? && HexValue(b).Some? && !IsAsciiSpace(a)
    ensures FromHex([a, b] + t)
         == (match FromHex(t)
             case None => None
             case Some(rest) => Some([(HexValue(a).value * 16 + HexValue(b).value) as byte] + rest))
  {
    var s := [a, b] + t;
    assert s[0] == a && s[1] == b && s[2..] == t;
  }

  /** `bytes.fromhex(b.hex()) == b`. */
  lemma {:induction false} HexRoundTrip(bytes: seq<byte>)
    ensures FromHex(ToHex(bytes)) == Some(bytes)
  {
    if bytes != [] {
      var hi, lo := bytes[0] / 16, bytes[0] % 16;
      HexDigitValue(hi);
      HexDigitValue(lo);
      var t := ToHex(bytes[1..]);
      var a, b := HexDigits[hi], HexDigits[lo];
      assert ToHex(bytes) == [a, b] + t;
      FromHexPair(a, b, t);
      HexRoundTrip(bytes[1..]);
      assert FromHex(t) == Some(bytes[1..]);
      assert (HexValue(a).value * 16 + HexValue(b).value) as byte == bytes[0];
      assert [bytes[0]] + bytes[1..] == bytes;
    }
  }

  function CharSetOr(charSets: Option<string>, defaultCharSet: string): string
  {
    if charSets.Some? then charSets.value else defaultCharSet
  }

  /** `encode_to_hex(text, char_sets)`: `text.encode(char_sets).hex()`. */
  function HexEncode(charsets: string -> Charset, charSet: string, data: Data): (r: CallOutcome)
    ensures r.Returned? <==> data.Text? && charsets(charSet).encode(data.text).Some?
    ensures r.Returned? ==> r.value == Text(ToHex(charsets(charSet).encode(data.text).value))
  {
    match data
    case Dict(_) => Threw("'dict' object has no attribute 'encode'")
    case Text(s) =>
      match charsets(charSet).encode(s)
      case None => Threw("text cannot be encoded as " + charSet)
      case Some(b) => Returned(Text(ToHex(b)))
  }

  /** `decode_from_hex(hex_text, char_sets)`: `bytes.fromhex(hex_text).decode(char_sets)`. */
  function HexDecode(charsets: string -> Charset, charSet: string, data: Data): (r: CallOutcome)
    ensures r.Returned? <==>
      data.Text? && FromHex(data.text).Some? && charsets(charSet).decode(FromHex(data.text).value).Some?
    ensures r.Returned? ==> r.value == Text(charsets(charSet).decode(FromHex(data.text).value).value)
  {
    match data
    case Dict(_) => Threw("fromhex() argument must be str, not dict")
    case Text(s) =>
      match FromHex(s)
      case None => Threw("non-hexadecimal number found in fromhex() arg")
      case Some(b) =>
        match charsets(charSet).decode(b)
        case None => Threw("bytes cannot be decoded as " + charSet)
        case Some(t) => Returned(Text(t))
  }

  function HexEncoder(charsets: string -> Charset, defaultCharSet: string): Coder
  {
    Coder((data, cs) => HexEncode(charsets, CharSetOr(cs, defaultCharSet), data), true)
  }

  function HexDecoder(charsets: string -> Charset, defaultCharSet: string): Coder
  {
    Coder((data, cs) => HexDecode(charsets, CharSetOr(cs, defaultCharSet), data), true)
  }

  /** The hex entries undo each other whenever every character set decodes
      what it encoded. */
  lemma HexInverse(charsets: string -> Charset, defaultCharSet: string)
    requires forall name :: Lawful(charsets(name))
    ensures Inverse(HexEncoder(charsets, defaultCharSet), HexDecoder(charsets, defaultCharSet))
  {
    var e, d := HexEncoder(charsets, defaultCharSet), HexDecoder(charsets, defaultCharSet);
    forall x, cs | Invoke(e, x, cs).Returned?
      ensures Invoke(d, Invoke(e, x, cs).value, cs) == Returned(x)
    {
      assert e.run(x, Some(cs)) == HexEncode(charsets, CharSetOr(Some(cs), defaultCharSet), x);
      assert Invoke(e, x, cs) == HexEncode(charsets, cs, x);
      var b := charsets(cs).encode(x.text).value;
      assert Invoke(e, x, cs) == Returned(Text(ToHex(b)));
      assert Lawful(charsets(cs));
      HexRoundTrip(b);
      assert d.run(Text(ToHex(b)), Some(cs)) == HexDecode(charsets, CharSetOr(Some(cs), defaultCharSet), Text(ToHex(b)));
    }
  }

  /** Text encoded with the built-in hex codec decodes back to itself. */
  lemma HexCodecRoundTrip(c: Codec, charsets: string -> Charset, defaultCharSet: string, s: string, charSets: string)
    requires "hex" in c.encoders && c.encoders["hex"] == HexEncoder(charsets, defaultCharSet)
    requires "hex" in c.decoders && c.decoders["hex"] == HexDecoder(charsets, defaultCharSet)
    requires Lawful(charsets(charSets))
    requires charsets(charSets).encode(s).Some?
    ensures c.Encode(Text(s), "hex", charSets) == Success(Text(ToHex(charsets(charSets).encode(s).value)))
    ensures c.Decode(c.Encode(Text(s), "hex", charSets).value, "hex", charSets) == Success(Text(s))
  {
    assert Strings.Lower("hex") == "hex";
    var b := charsets(charSets).encode(s).value;
    assert c.encoders["hex"].run(Text(s), Some(charSets)) == HexEncode(charsets, CharSetOr(Some(charSets), defaultCharSet), Text(s));
    HexRoundTrip(b);
    assert c.decoders["hex"].run(Text(ToHex(b)), Some(charSets)) == HexDecode(charsets, CharSetOr(Some(charSets), defaultCharSet), Text(ToHex(b)));
  }

  // ----- The custom codec of the class documentation -----

  function Reverse(s: string): (r: string)
    ensures |r| == |s|
    ensures forall i :: 0 <= i < |s| ==> r[i] == s[|s| - 1 - i]
  {
    if s == [] then [] else Reverse(s[1..]) + [s[0]]
  }

  /** `custom_encode`/`custom_decode`: `data[::-1]`. */
  function ReverseRun(data: Data): CallOutcome
  {
    match data
    case Text(s) => Returned(Text(Reverse(s)))
    case Dict(_) => Threw("unhashable type: 'slice'")
  }

  function ReverseCoder(): Coder
  {
    Coder((data, cs) => ReverseRun(data), false)
  }

  /** The usage in the class documentation: after registering 'reverse',
      encoding 'Hello' gives 'olleH' and decoding that gives 'Hello'. */
  method ReverseExample(c: Codec) returns (encoded: Result<Data, CodecError>, decoded: Result<Data, CodecError>)
    modifies c
    ensures c.encoders == old(c.encoders)["reverse" := ReverseCoder()]
    ensures c.decoders == old(c.decoders)["reverse" := ReverseCoder()]
    ensures encoded == Success(Text("olleH"))
    ensures decoded == Success(Text("Hello"))
  {
    c.Register("reverse", ReverseCoder(), ReverseCoder());
    assert Strings.Lower("reverse") == "reverse";
    assert Reverse("Hello") == "olleH";
    assert Reverse("olleH") == "Hello";
    encoded := c.Encode(Text("Hello"), "reverse", "utf-8");
    decoded := c.Decode(encoded.value, "reverse", "utf-8");
  }
}
