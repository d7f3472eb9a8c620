/** The configuration records and the attribute-list parser of the client
    section (`ClientConfig::from_xml`). The XML document itself is fetched and
    tokenised elsewhere; this module starts from the attribute list of one
    element. */
module Config {
  import opened Base
  import Decimal
  import OrderedMap

  /** One XML attribute: its name and its (unescaped) value. */
  datatype Attribute = Attribute(name: string, value: string)

  /** The `<client>` section: the client's address, position and provider. */
  datatype ClientConfig = ClientConfig(
    ip: string,
    lat: Float32,
    lon: Float32,
    isp: string,
    isprating: Float32,
    ispdlavg: nat,
    ispulavg: nat)

  /** The `<upload>` section. `maxchunkcount` is read as a number by the upload
      test, so it is a number here. */
  datatype UploadConfig = UploadConfig(
    testlength: nat,
    ratio: nat,
    initialtest: string,
    mintestsize: string,
    threads: nat,
    maxchunksize: string,
    maxchunkcount: nat,
    threadsperurl: nat)

  /** One entry of the server catalog. */
  datatype TestServer = TestServer(
    url: string,
    latitude: Float32,
    longitude: Float32,
    name: string,
    country: string,
    countryCode: string,
    id: nat,
    url2: string,
    host: string)

  /** The values the parser starts from: empty texts and zeros. */
  const DefaultClientConfig: ClientConfig :=
    ClientConfig("", Float32Zero, Float32Zero, "", Float32Zero, 0, 0)

  const ClientFieldNames: set<string> :=
    {"ip", "lat", "lon", "isp", "isprating", "ispdlavg", "ispulavg"}

  /** A single-precision float parse (`parse::<f32>()`), given by the caller:
      `None` is a parse error. */
  type F32Parser = string -> Option<Float32>

  /** `parse::<f32>().unwrap_or(0.0)` */
  function FloatOrZero(parseF32: F32Parser, text: string): Float32 {
    parseF32(text).GetOr(Float32Zero)
  }

  /** `parse::<u64>().unwrap_or(0)` */
  function UnsignedOrZero(text: string): (n: nat)
    ensures n <= Decimal.U64Max
    ensures Decimal.ParseU64(text).None? ==> n == 0
    ensures Decimal.ParseU64(text).Some? ==> n == Decimal.ParseU64(text).value
  {
    Decimal.ParseU64(text).GetOr(0)
  }

  /** One turn of the loop over the attributes: the `if`/`else if` chain on the
      attribute name. */
  function ApplyAttribute(c: ClientConfig, a: Attribute, parseF32: F32Parser): ClientConfig {
    if a.name == "ip" then c.(ip := a.value)
    else if a.name == "lat" then c.(lat := FloatOrZero(parseF32, a.value))
    else if a.name == "lon" then c.(lon := FloatOrZero(parseF32, a.value))
    else if a.name == "isp" then c.(isp := a.value)
    else if a.name == "isprating" then c.(isprating := FloatOrZero(parseF32, a.value))
    else if a.name == "ispdlavg" then c.(ispdlavg := UnsignedOrZero(a.value))
    else if a.name == "ispulavg" then c.(ispulavg := UnsignedOrZero(a.value))
    else c
  }

  /** The configuration after the loop has seen `attrs`, from the defaults. */
  function ClientFromAttributes(attrs: seq<Attribute>, parseF32: F32Parser): ClientConfig {
    if attrs == [] then DefaultClientConfig
    else ApplyAttribute(ClientFromAttributes(attrs[..|attrs| - 1], parseF32), attrs[|attrs| - 1], parseF32)
  }

  /** `ClientConfig::from_xml`: one pass over the attributes that reassigns
      typed locals, then builds the record. */
  method FromXml(clientConf: seq<Attribute>, parseF32: F32Parser) returns (c: ClientConfig)
    ensures c == ClientFromAttributes(clientConf, parseF32)
  {
    var ip := "";
    var lat := Float32Zero;
    var lon := Float32Zero;
    var isp := "";
    var isprating := Float32Zero;
    var ispdlavg := 0;
    var ispulavg := 0;

    for i := 0 to |clientConf|
      invariant ClientConfig(ip, lat, lon, isp, isprating, ispdlavg, ispulavg)
                == ClientFromAttributes(clientConf[..i], parseF32)
    {
      var attrib := clientConf[i];
      if attrib.name == "ip" {
        ip := attrib.value;
      } else if attrib.name == "lat" {
        lat := FloatOrZero(parseF32, attrib.value);
      } else if attrib.name == "lon" {
        lon := FloatOrZero(parseF32, attrib.value);
      } else if attrib.name == "isp" {
        isp := attrib.value;
      } else if attrib.name == "isprating" {
        isprating := FloatOrZero(parseF32, attrib.value);
      } else if attrib.name == "ispdlavg" {
        ispdlavg := UnsignedOrZero(attrib.value);
      } else if attrib.name == "ispulavg" {
        ispulavg := UnsignedOrZero(attrib.value);
      }
      assert clientConf[..i + 1][..i] == clientConf[..i];
    }
    assert clientConf[..|clientConf|] == clientConf;
    c := ClientConfig(ip, lat, lon, isp, isprating, ispdlavg, ispulavg);
  }

  /** The attributes as (name, value) pairs, in their order. */
  function Pairs(attrs: seq<Attribute>): (p: seq<(string, string)>)
    ensures |p| == |attrs|
    ensures forall i :: 0 <= i < |attrs| ==> p[i] == (attrs[i].name, attrs[i].value)
  {
    seq(|attrs|, i requires 0 <= i < |attrs| => (attrs[i].name, attrs[i].value))
  }

  /** Attributes with names outside the recognised set change nothing. */
  lemma UnknownAttributeIgnored(c: ClientConfig, a: Attribute, parseF32: F32Parser)
    requires a.name !in ClientFieldNames
    ensures ApplyAttribute(c, a, parseF32) == c
  {
  }

  /** The attributes whose names the parser recognises, in their order. */
  function Recognised(attrs: seq<Attribute>): (r: seq<Attribute>)
    ensures |r| <= |attrs|
    ensures forall i :: 0 <= i < |r| ==> r[i].name in ClientFieldNames
  {
    if attrs == [] then []
    else if attrs[|attrs| - 1].name in ClientFieldNames
    then Recognised(attrs[..|attrs| - 1]) + [attrs[|attrs| - 1]]
    else Recognised(attrs[..|attrs| - 1])
  }

  /** Dropping every unrecognised attribute gives the same configuration. */
  lemma {:induction false} UnrecognisedAttributesIrrelevant(attrs: seq<Attribute>, parseF32: F32Parser)
    ensures ClientFromAttributes(Recognised(attrs), parseF32) == ClientFromAttributes(attrs, parseF32)
  {
    if attrs != [] {
      var init := attrs[..|attrs| - 1];
      UnrecognisedAttributesIrrelevant(init, parseF32);
      var r := Recognised(init) + [attrs[|attrs| - 1]];
      assert r[..|r| - 1] == Recognised(init);
    }
  }

  /** One field of a client configuration, by its attribute name. */
  datatype FieldValue = Text(s: string) | Float(f: Float32) | Unsigned(n: nat) | NoField

  function Field(c: ClientConfig, name: string): FieldValue {
    if name == "ip" then Text(c.ip)
    else if name == "lat" then Float(c.lat)
    else if name == "lon" then Float(c.lon)
    else if name == "isp" then Text(c.isp)
    else if name == "isprating" then Float(c.isprating)
    else if name == "ispdlavg" then Unsigned(c.ispdlavg)
    else if name == "ispulavg" then Unsigned(c.ispulavg)
    else NoField
  }

  /** The value an attribute called `name` with text `v` gives its field:
      the text itself, or the number it parses to with 0 on failure. */
  function Decoded(name: string, v: string, parseF32: F32Parser): FieldValue {
    if name == "ip" || name == "isp" then Text(v)
    else if name == "lat" || name == "lon" || name == "isprating" then Float(FloatOrZero(parseF32, v))
    else if name == "ispdlavg" || name == "ispulavg" then Unsigned(UnsignedOrZero(v))
    else NoField
  }

  /** An attribute sets the one field it is named after, to its decoded value,
      and leaves every other field as it was. */
  lemma AttributeSetsOneField(c: ClientConfig, a: Attribute, parseF32: F32Parser, name: string)
    ensures Field(ApplyAttribute(c, a, parseF32), name)
            == if a.name == name then Decoded(name, a.value, parseF32) else Field(c, name)
  {
  }

  /** Every field is decided by the LAST attribute of its name alone: copied
      verbatim for text, parsed with 0 on failure for numbers, and left at its
      default when the name never occurs. Earlier occurrences and attributes
      with other names have no effect. */
  lemma {:induction false} FieldFromLastOccurrence(attrs: seq<Attribute>, parseF32: F32Parser, name: string)
    ensures Field(ClientFromAttributes(attrs, parseF32), name)
            == match OrderedMap.LastWith(Pairs(attrs), name)
               case None => Field(DefaultClientConfig, name)
               case Some(v) => Decoded(name, v, parseF32)
  {
    if attrs != [] {
      var init := attrs[..|attrs| - 1];
      FieldFromLastOccurrence(init, parseF32, name);
      assert Pairs(attrs)[..|attrs| - 1] == Pairs(init);
      AttributeSetsOneField(ClientFromAttributes(init, parseF32), attrs[|attrs| - 1], parseF32, name);
    }
  }

  /** With no attributes every field keeps its default. */
  lemma NoAttributesGiveDefaults(parseF32: F32Parser)
    ensures ClientFromAttributes([], parseF32) == ClientConfig("", Float32Zero, Float32Zero, "", Float32Zero, 0, 0)
  {
  }

  /** A repeated name: the last occurrence wins; an unparsable number reads as 0. */
  lemma RepeatedAndMalformedNumbers(parseF32: F32Parser)
    ensures ClientFromAttributes([Attribute("ispdlavg", "5"), Attribute("ispdlavg", "7")], parseF32).ispdlavg == 7
    ensures ClientFromAttributes([Attribute("ispdlavg", "5"), Attribute("ispdlavg", "7x")], parseF32).ispdlavg == 0
  {
    var s := [Attribute("ispdlavg", "5"), Attribute("ispdlavg", "7")];
    assert s[..1] == [s[0]];
    assert Decimal.DigitsValue("7") == 7 by {
      assert "7"[..0] == [];
    }
    var t := [Attribute("ispdlavg", "5"), Attribute("ispdlavg", "7x")];
    assert t[..1] == [t[0]];
    assert !Decimal.IsDigit("7x"[1]);
  }
}
