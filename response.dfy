/** Canned responses and the decoding of their bodies (src/simulation/response.ts). */
module Response {
  import opened Wrappers

  newtype byte = x: int | 0 <= x < 256

  /** A canned response. `body` is the raw text, or its base64 encoding when
      `encodedBody` holds. Header values are lists, as the service stores them. */
  datatype ResponseData = ResponseData(
    status: int,
    body: string,
    encodedBody: bool,
    headers: Field<map<string, seq<string>>>,
    templated: bool,
    transitionsState: Field<map<string, string>>)

  /** The three library conversions the decoder chains together. Decoding base64 and
      reading bytes as UTF-8 never fail (malformed input is skipped or replaced);
      brotli decompression fails on a corrupt stream. */
  datatype Codecs = Codecs(
    base64Decode: string -> seq<byte>,
    brotliDecompress: seq<byte> -> Option<seq<byte>>,
    utf8Decode: seq<byte> -> string)

  /** The error brotli decompression raises on a stream it cannot read. */
  datatype DecodeError = CorruptBrotliStream

  const ContentEncoding := "Content-Encoding"
  const Brotli := "br"

  /** The headers are present and their `Content-Encoding` list has an element equal to
      "br". This is list membership of the whole string, not a substring search. */
  predicate DeclaresBrotli(headers: Field<map<string, seq<string>>>)
  {
    headers.Value? && ContentEncoding in headers.value && Brotli in headers.value[ContentEncoding]
  }

  /** The body as text. Only a base64 body that declares brotli is decoded; every other
      body comes back exactly as stored, whatever other encoding it declares. */
  function DecodeResponseBody(codecs: Codecs, response: ResponseData): (r: Result<string, DecodeError>)
    ensures r.Failure? ==> response.encodedBody && DeclaresBrotli(response.headers)
    ensures !response.encodedBody ==> r == Success(response.body)
    ensures !DeclaresBrotli(response.headers) ==> r == Success(response.body)
    ensures response.encodedBody && DeclaresBrotli(response.headers) ==>
              match codecs.brotliDecompress(codecs.base64Decode(response.body))
              case Some(plain) => r == Success(codecs.utf8Decode(plain))
              case None => r == Failure(CorruptBrotliStream)
  {
    if response.encodedBody && DeclaresBrotli(response.headers) then
      match codecs.brotliDecompress(codecs.base64Decode(response.body))
      case Some(plain) => Success(codecs.utf8Decode(plain))
      case None => Failure(CorruptBrotliStream)
    else
      Success(response.body)
  }

  /** The encoders a response body is produced with. */
  datatype Encoders = Encoders(
    base64Encode: seq<byte> -> string,
    brotliCompress: seq<byte> -> seq<byte>,
    utf8Encode: string -> seq<byte>)

  /** Each codec undoes its encoder. */
  ghost predicate Inverts(codecs: Codecs, encoders: Encoders)
  {
    && (forall b :: codecs.base64Decode(encoders.base64Encode(b)) == b)
    && (forall b :: codecs.brotliDecompress(encoders.brotliCompress(b)) == Some(b))
    && (forall t :: codecs.utf8Decode(encoders.utf8Encode(t)) == t)
  }

  /** A text that is UTF-8 encoded, brotli compressed and base64 encoded, stored with
      `encodedBody` set and a `Content-Encoding` list holding "br", decodes back to the
      text, whatever the other members of the response are. */
  lemma BrotliRoundTrip(codecs: Codecs, encoders: Encoders, text: string, response: ResponseData)
    requires Inverts(codecs, encoders)
    requires response.encodedBody && DeclaresBrotli(response.headers)
    requires response.body == encoders.base64Encode(encoders.brotliCompress(encoders.utf8Encode(text)))
    ensures DecodeResponseBody(codecs, response) == Success(text)
  {
  }

  /** A base64 body that declares any encoding list without "br" (gzip, say, or none at
      all) is returned still base64 encoded: there is no gzip branch and no branch that
      only undoes the base64. */
  lemma OtherEncodingsStayEncoded(codecs: Codecs, response: ResponseData)
    requires response.encodedBody
    requires response.headers.Value? && ContentEncoding in response.headers.value
    requires Brotli !in response.headers.value[ContentEncoding]
    ensures DecodeResponseBody(codecs, response) == Success(response.body)
  {
  }

  /** "br" is matched as a list element only: a single header value "gzip, br" does not
      select brotli, while the two values "gzip" and "br" do. */
  lemma BrotliIsMatchedAsElement()
    ensures !DeclaresBrotli(Value(map[ContentEncoding := ["gzip, br"]]))
    ensures DeclaresBrotli(Value(map[ContentEncoding := ["gzip", "br"]]))
  {
  }
}
