/** Requests and responses as bytes: three little-endian 64-bit fields, then the body. */
module Wire {

  type Byte = b: nat | b < 256

  const WORD: nat := 0x1_0000_0000_0000_0000

  type Unsigned = n: nat | n < 0x1_0000_0000_0000_0000
  type Signed = x: int | -0x8000_0000_0000_0000 <= x < 0x8000_0000_0000_0000

  const HEADER_SIZE: nat := 24

  /** The kinds of request; any other value of the field is possible on the wire. */
  const R: nat := 0
  const W: nat := 1
  const WR: nat := 2

  /** A request; on the wire its header also carries the size of the body. */
  datatype Request = Request(kind: Unsigned, endpoint: Signed, body: seq<Byte>)
  {
    predicate Representable() {
      |body| < WORD
    }
  }

  predicate AllRepresentable(requests: seq<Request>) {
    forall i :: 0 <= i < |requests| ==> requests[i].Representable()
  }

  datatype RequestHeader = RequestHeader(kind: Unsigned, endpoint: Signed, length: Unsigned)

  datatype Code = Ok | NoContent | BadRequest | ConnectionError | BufferOverflow | ConnectionTimeout | NotFound

  datatype Response = Response(code: Code, endpoint: Signed, data: seq<Byte>)
  {
    predicate Representable() {
      |data| < WORD
    }
  }

  /** Two's complement. */
  function ToUnsigned(x: Signed): Unsigned {
    if x < 0 then x + WORD else x
  }

  function ToSigned(n: Unsigned): Signed {
    if n < 0x8000_0000_0000_0000 then n else n - WORD
  }

  function Power256(k: nat): (p: nat)
    ensures p > 0
  {
    if k == 0 then 1 else 256 * Power256(k - 1)
  }

  function LittleEndian(n: nat, k: nat): (bytes: seq<Byte>)
    ensures |bytes| == k
  {
    if k == 0 then [] else [n % 256] + LittleEndian(n / 256, k - 1)
  }

  function FromLittleEndian(bytes: seq<Byte>): (n: nat)
    ensures n < Power256(|bytes|)
  {
    if bytes == [] then 0 else bytes[0] + 256 * FromLittleEndian(bytes[1..])
  }

  lemma {:induction false} LittleEndianRoundTrip(n: nat, k: nat)
    requires n < Power256(k)
    ensures FromLittleEndian(LittleEndian(n, k)) == n
  {
    if k == 0 {
    } else {
      LittleEndianRoundTrip(n / 256, k - 1);
      assert LittleEndian(n, k)[1..] == LittleEndian(n / 256, k - 1);
    }
  }

  /** Digit j of a number to the base 256. */
  function Digit(n: nat, j: nat): nat {
    n / Power256(j) % 256
  }

  /** The bytes of a number are its digits to the base 256, the least significant first. */
  lemma {:induction false} Digits(n: nat, k: nat, j: nat)
    requires j < k
    ensures LittleEndian(n, k)[j] == Digit(n, j)
  {
    if j == 0 {
    } else {
      Digits(n / 256, k - 1, j - 1);
      DividedTwice(n, Power256(j - 1));
    }
  }

  lemma DividedTwice(n: nat, p: nat)
    requires p > 0
    ensures n / 256 / p == n / (256 * p)
  {
    var q, m := n / 256, n / 256 / p;
    assert p * m <= q < p * m + p;
    assert 256 * q <= n < 256 * q + 256;
    Scale(p, m);
    QuotientIs(n, 256 * p, m);
  }

  lemma Scale(p: nat, m: nat)
    ensures 256 * p * m == 256 * (p * m)
  {
  }

  lemma QuotientIs(n: nat, d: nat, q: nat)
    requires d > 0 && d * q <= n < d * q + d
    ensures n / d == q
  {
    var r := n / d;
    assert d * r <= n < d * r + d;
    if r < q {
      ProductOrder(d, r + 1, q);
    } else if r > q {
      ProductOrder(d, q + 1, r);
    }
  }

  lemma ProductOrder(d: nat, x: nat, y: nat)
    requires x <= y
    ensures d * x <= d * y
  {
  }

  lemma WordSize()
    ensures Power256(8) == WORD
  {
    assert Power256(4) == 0x1_0000_0000;
    assert Power256(5) == 256 * Power256(4);
    assert Power256(6) == 256 * Power256(5);
    assert Power256(7) == 256 * Power256(6);
  }

  function Word(n: nat): (bytes: seq<Byte>)
    ensures |bytes| == 8
  {
    LittleEndian(n, 8)
  }

  function FromWord(bytes: seq<Byte>): Unsigned
    requires |bytes| == 8
  {
    WordSize();
    FromLittleEndian(bytes)
  }

  lemma WordRoundTrip(n: Unsigned)
    ensures FromWord(Word(n)) == n
  {
    WordSize();
    LittleEndianRoundTrip(n, 8);
  }

  /** Three words, a body and what follows them, taken apart again. */
  lemma FramePieces(a: seq<Byte>, b: seq<Byte>, c: seq<Byte>, body: seq<Byte>, rest: seq<Byte>)
    requires |a| == |b| == |c| == 8
    ensures var stream := a + b + c + body + rest;
      && |stream| == HEADER_SIZE + |body| + |rest|
      && stream[..8] == a && stream[8..16] == b && stream[16..24] == c
      && stream[HEADER_SIZE..HEADER_SIZE + |body|] == body && stream[HEADER_SIZE + |body|..] == rest
  {
  }

  // ---------------------------------------------------------------- requests

  function EncodeRequest(r: Request): seq<Byte>
    requires r.Representable()
  {
    Word(r.kind) + Word(ToUnsigned(r.endpoint)) + Word(|r.body|) + r.body
  }

  function EncodeRequests(requests: seq<Request>): seq<Byte>
    requires AllRepresentable(requests)
  {
    if requests == [] then [] else EncodeRequest(requests[0]) + EncodeRequests(requests[1..])
  }

  function DecodeHeader(bytes: seq<Byte>): RequestHeader
    requires |bytes| == HEADER_SIZE
  {
    RequestHeader(FromWord(bytes[..8]), ToSigned(FromWord(bytes[8..16])), FromWord(bytes[16..]))
  }

  /** The header at the front of an encoded request. */
  lemma HeaderRoundTrip(r: Request, rest: seq<Byte>)
    requires r.Representable()
    ensures var stream := EncodeRequest(r) + rest;
      && |stream| == HEADER_SIZE + |r.body| + |rest|
      && DecodeHeader(stream[..HEADER_SIZE]) == RequestHeader(r.kind, r.endpoint, |r.body|)
      && stream[HEADER_SIZE..HEADER_SIZE + |r.body|] == r.body
      && stream[HEADER_SIZE + |r.body|..] == rest
  {
    var kind, endpoint, length := Word(r.kind), Word(ToUnsigned(r.endpoint)), Word(|r.body|);
    WordRoundTrip(r.kind);
    WordRoundTrip(ToUnsigned(r.endpoint));
    WordRoundTrip(|r.body|);
    FramePieces(kind, endpoint, length, r.body, rest);
    hide Word, FromWord, ToSigned, ToUnsigned;
    var stream := EncodeRequest(r) + rest;
    var header := stream[..HEADER_SIZE];
    assert header[..8] == stream[..8] && header[8..16] == stream[8..16] && header[16..] == stream[16..24];
  }

  /** Digit j of a 64-bit number. */
  predicate IsDigit(byte: Byte, n: int, j: nat) {
    byte == Digit(n % 0x1_0000_0000_0000_0000, j)
  }

  lemma FieldDigits(n: Unsigned, x: Signed, j: nat)
    requires j < 8
    ensures IsDigit(Word(n)[j], n, j) && IsDigit(Word(ToUnsigned(x))[j], x, j)
  {
    hide Digit, LittleEndian, ToUnsigned;
    Modulus(n, x);
    Digits(n, 8, j);
    Digits(ToUnsigned(x), 8, j);
  }

  lemma Modulus(n: Unsigned, x: Signed)
    ensures n % 0x1_0000_0000_0000_0000 == n && x % 0x1_0000_0000_0000_0000 == ToUnsigned(x)
  {
  }

  lemma FieldAt(a: seq<Byte>, b: seq<Byte>, c: seq<Byte>, body: seq<Byte>, j: nat)
    requires |a| == |b| == |c| == 8 && j < 8
    ensures var bytes := a + b + c + body;
      && |bytes| == 24 + |body| && bytes[24..] == body
      && bytes[j] == a[j] && bytes[8 + j] == b[j] && bytes[16 + j] == c[j]
  {
  }

  /** The layout of a request: kind, endpoint and size of the body in eight bytes each, the least significant first
      and the endpoint in two's complement, then the body. */
  lemma RequestLayout(r: Request, j: nat)
    requires r.Representable() && j < 8
    ensures var bytes := EncodeRequest(r);
      && |bytes| == 24 + |r.body| && bytes[24..] == r.body
      && IsDigit(bytes[j], r.kind, j)
      && IsDigit(bytes[8 + j], r.endpoint, j)
      && IsDigit(bytes[16 + j], |r.body|, j)
  {
    var kind, endpoint, length := Word(r.kind), Word(ToUnsigned(r.endpoint)), Word(|r.body|);
    hide Word, ToUnsigned, IsDigit;
    FieldAt(kind, endpoint, length, r.body, j);
    FieldDigits(r.kind, r.endpoint, j);
    FieldDigits(|r.body|, r.endpoint, j);
  }

  // ---------------------------------------------------------------- responses

  function CodeNumber(c: Code): (n: nat)
    ensures n < 7
  {
    match c
    case Ok => 0
    case NoContent => 1
    case BadRequest => 2
    case ConnectionError => 3
    case BufferOverflow => 4
    case ConnectionTimeout => 5
    case NotFound => 6
  }

  function CodeOf(n: nat): Code
    requires n < 7
  {
    [Ok, NoContent, BadRequest, ConnectionError, BufferOverflow, ConnectionTimeout, NotFound][n]
  }

  function EncodeResponse(r: Response): seq<Byte>
    requires r.Representable()
  {
    Word(CodeNumber(r.code)) + Word(ToUnsigned(r.endpoint)) + Word(|r.data|) + r.data
  }

  function EncodeResponses(responses: seq<Response>): seq<Byte>
    requires forall i :: 0 <= i < |responses| ==> responses[i].Representable()
  {
    if responses == [] then [] else EncodeResponse(responses[0]) + EncodeResponses(responses[1..])
  }

  datatype Option<T> = None | Some(value: T)

  /** What a client makes of the bytes it receives: whole responses and nothing else. */
  function DecodeResponses(stream: seq<Byte>): Option<seq<Response>> {
    if stream == [] then Some([])
    else if |stream| < HEADER_SIZE then None
    else
      var code, length := FromWord(stream[..8]), FromWord(stream[16..24]);
      if code >= 7 || |stream| < HEADER_SIZE + length then None
      else
        match DecodeResponses(stream[HEADER_SIZE + length..])
        case None => None
        case Some(rest) =>
          var r := Response(CodeOf(code), ToSigned(FromWord(stream[8..16])), stream[HEADER_SIZE..HEADER_SIZE + length]);
          Some([r] + rest)
  }

  lemma ResponseFront(r: Response, rest: seq<Byte>)
    requires r.Representable()
    ensures var stream := EncodeResponse(r) + rest;
      && |stream| == HEADER_SIZE + |r.data| + |rest|
      && FromWord(stream[..8]) == CodeNumber(r.code)
      && ToSigned(FromWord(stream[8..16])) == r.endpoint
      && FromWord(stream[16..24]) == |r.data|
      && stream[HEADER_SIZE..HEADER_SIZE + |r.data|] == r.data
      && stream[HEADER_SIZE + |r.data|..] == rest
  {
    var code, endpoint, length := Word(CodeNumber(r.code)), Word(ToUnsigned(r.endpoint)), Word(|r.data|);
    WordRoundTrip(CodeNumber(r.code));
    WordRoundTrip(ToUnsigned(r.endpoint));
    WordRoundTrip(|r.data|);
    FramePieces(code, endpoint, length, r.data, rest);
    hide Word, FromWord, ToSigned, ToUnsigned, CodeNumber;
  }

  /** The layout of a response: its code, numbered in the order of their declaration, endpoint and size, then the
      body. */
  lemma ResponseLayout(r: Response, j: nat)
    requires r.Representable() && j < 8
    ensures var bytes := EncodeResponse(r);
      var code := match r.code
        case Ok => 0
        case NoContent => 1
        case BadRequest => 2
        case ConnectionError => 3
        case BufferOverflow => 4
        case ConnectionTimeout => 5
        case NotFound => 6;
      && |bytes| == 24 + |r.data| && bytes[24..] == r.data
      && IsDigit(bytes[j], code, j)
      && IsDigit(bytes[8 + j], r.endpoint, j)
      && IsDigit(bytes[16 + j], |r.data|, j)
  {
    var code, endpoint, length := Word(CodeNumber(r.code)), Word(ToUnsigned(r.endpoint)), Word(|r.data|);
    hide Word, ToUnsigned, IsDigit;
    FieldAt(code, endpoint, length, r.data, j);
    FieldDigits(CodeNumber(r.code), r.endpoint, j);
    FieldDigits(|r.data|, r.endpoint, j);
  }

  lemma CodeRoundTrip(c: Code)
    ensures CodeOf(CodeNumber(c)) == c
  {
  }

  lemma DecodesFront(r: Response, rest: seq<Byte>, responses: seq<Response>)
    requires r.Representable() && DecodeResponses(rest) == Some(responses)
    ensures DecodeResponses(EncodeResponse(r) + rest) == Some([r] + responses)
  {
    ResponseFront(r, rest);
    CodeRoundTrip(r.code);
    hide FromWord, ToSigned, EncodeResponse, CodeOf, CodeNumber;
  }

  /** A client recovers exactly the responses that were sent, whatever their bodies contain. */
  lemma {:induction false} ResponsesRoundTrip(responses: seq<Response>)
    requires forall i :: 0 <= i < |responses| ==> responses[i].Representable()
    ensures DecodeResponses(EncodeResponses(responses)) == Some(responses)
  {
    hide EncodeResponse;
    if responses == [] {
    } else {
      var first, rest := responses[0], responses[1..];
      ResponsesRoundTrip(rest);
      DecodesFront(first, EncodeResponses(rest), rest);
      assert responses == [first] + rest;
    }
  }
}
