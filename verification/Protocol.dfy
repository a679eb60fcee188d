/** The messages of ServerIcd.h and protocol.py and their packed little-endian layouts. */
module Protocol {
  import opened Octets
  import opened Blocks
  import opened Powers
  import opened Wrappers

  /** A 16-byte client id. */
  type Id = Block

  const NAME_SIZE := 255
  const PUBLIC_KEY_SIZE := 160
  const REQUEST_HEADER_SIZE := 23
  const RESPONSE_HEADER_SIZE := 7
  const PACKET_SIZE := 1024
  const CLIENT_VERSION := 2
  const SERVER_VERSION := 3
  const WORD := 0x1_0000_0000

  datatype Verdict = Valid | Resend | Abort

  datatype Request =
    | Registration(headerId: Id, name: Bytes)
    | PublicKey(headerId: Id, name: Bytes, key: Bytes)
    | SendFile(headerId: Id, contentSize: nat, fileName: Bytes, content: Bytes)
    | CrcStatus(verdict: Verdict, headerId: Id, clientId: Id, fileName: Bytes)

  datatype Response =
    | Registered(clientId: Id)
    | RegistrationFailed
    | KeyReceived(clientId: Id, wrappedKey: Bytes)
    | FileCrc(clientId: Id, contentSize: nat, fileName: Bytes, checksum: bv32)
    | Received

  // ----- numbers and names -----

  /** `n` in `k` little-endian bytes, higher parts dropped. */
  function Le(n: nat, k: nat): (s: Bytes)
    ensures |s| == k
  {
    if k == 0 then [] else [LowByte(n)] + Le(n / 256, k - 1)
  }

  function LowByte(n: nat): byte { ToByte(n % 256) }

  lemma DigitOfLowByte(n: nat)
    ensures Digit(LowByte(n)) == n % 256
  {
    hide Digit, ToByte;
    DigitOfByte(n % 256);
  }

  function FromLe(s: Bytes): nat {
    if s == [] then 0 else Digit(s[0]) + 256 * FromLe(s[1..])
  }

  lemma {:induction false} FromLeOfLe(n: nat, k: nat)
    requires n < Pow256(k)
    ensures FromLe(Le(n, k)) == n
  {
    hide Digit, LowByte;
    if k > 0 {
      var s := Le(n, k);
      assert s[1..] == Le(n / 256, k - 1);
      DigitOfLowByte(n);
      assert n / 256 < Pow256(k - 1);
      FromLeOfLe(n / 256, k - 1);
    }
  }

  lemma Widths()
    ensures Pow256(2) == 0x1_0000 && Pow256(4) == WORD
  {
    assert Pow256(1) == 256;
    assert Pow256(2) == 256 * Pow256(1);
    assert Pow256(3) == 256 * Pow256(2);
    assert Pow256(4) == 256 * Pow256(3);
  }

  /** A fixed field: the text, then zeros (longer text is cut). */
  function Fixed(text: Bytes, size: nat): (s: Bytes)
    ensures |s| == size
  {
    if |text| >= size then text[..size] else text + seq(size - |text|, _ => 0)
  }

  /** What precedes the first NUL. */
  function BeforeNul(s: Bytes): Bytes {
    if s == [] || s[0] == 0 then [] else [s[0]] + BeforeNul(s[1..])
  }

  predicate IsText(text: Bytes, size: nat) {
    |text| <= size && 0 !in text
  }

  lemma {:induction false} BeforeNulOfText(text: Bytes, rest: Bytes)
    requires 0 !in text && (rest == [] || rest[0] == 0)
    ensures BeforeNul(text + rest) == text
  {
    if text != [] {
      assert (text + rest)[1..] == text[1..] + rest;
      BeforeNulOfText(text[1..], rest);
    } else {
      assert text + rest == rest;
    }
  }

  lemma FixedRoundTrip(text: Bytes, size: nat)
    requires IsText(text, size)
    ensures BeforeNul(Fixed(text, size)) == text
  {
    if |text| == size {
      assert Fixed(text, size) == text + [];
      BeforeNulOfText(text, []);
    } else {
      BeforeNulOfText(text, seq(size - |text|, _ => 0));
    }
  }

  function LeWord(w: bv32): (s: Bytes)
    ensures |s| == 4
  {
    [Byte32(w, 0), Byte32(w, 1), Byte32(w, 2), Byte32(w, 3)]
  }

  function FromLeWord(s: Bytes): bv32
    requires |s| == 4
  {
    Word32(s[0], s[1], s[2], s[3])
  }

  lemma LeWordRoundTrip(w: bv32)
    ensures FromLeWord(LeWord(w)) == w
  {
    hide Word32, Byte32;
    WordOfBytes(w);
  }

  // ----- slices of packed data -----

  /** `len` bytes from `off`, as a Python slice: shorter when the data ends. */
  function Slice(data: Bytes, off: nat, len: nat): Bytes {
    if off >= |data| then []
    else if off + len > |data| then data[off..]
    else data[off..off + len]
  }

  lemma SliceOfConcat(a: Bytes, b: Bytes, c: Bytes)
    ensures Slice(a + (b + c), |a|, |b|) == b
  {
    var d := a + (b + c);
    if b != [] {
      assert d[|a|..|a| + |b|] == b;
    } else if |a| < |d| {
      assert d[|a|..|a|] == [];
    }
  }

  // ----- requests -----

  function RequestCode(r: Request): nat {
    match r
    case Registration(_, _) => 1100
    case PublicKey(_, _, _) => 1101
    case SendFile(_, _, _, _) => 1102
    case CrcStatus(Valid, _, _, _) => 1104
    case CrcStatus(Resend, _, _, _) => 1105
    case CrcStatus(Abort, _, _, _) => 1106
  }

  function RequestHeader(id: Id, code: nat, payloadSize: nat): (s: Bytes)
    ensures |s| == REQUEST_HEADER_SIZE
  {
    id + ([CLIENT_VERSION as byte] + (Le(code, 2) + Le(payloadSize, 4)))
  }

  function Payload(r: Request): Bytes {
    match r
    case Registration(_, name) => Fixed(name, NAME_SIZE)
    case PublicKey(_, name, key) => Fixed(name, NAME_SIZE) + Fixed(key, PUBLIC_KEY_SIZE)
    case SendFile(_, contentSize, fileName, content) => Le(contentSize, 4) + (Fixed(fileName, NAME_SIZE) + content)
    case CrcStatus(_, _, clientId, fileName) => clientId + Fixed(fileName, NAME_SIZE)
  }

  /** The buffer the client hands to its channel. */
  function PackRequest(r: Request): (s: Bytes)
    ensures |s| == REQUEST_HEADER_SIZE + |Payload(r)|
  {
    RequestHeader(r.headerId, RequestCode(r), |Payload(r)|) + Payload(r)
  }

  datatype Header = Header(clientId: Id, version: nat, code: nat, payloadSize: nat)

  function UnpackHeader(data: Bytes): Option<Header> {
    if |data| < REQUEST_HEADER_SIZE then None
    else
      var id: Id := data[..16];
      Some(Header(id, data[16] as nat, FromLe(data[17..19]), FromLe(data[19..23])))
  }

  /** The handlers' `unpack` for every code but 1102; None stands for a failed unpack or an
      unknown code. */
  function UnpackRequest(data: Bytes): Option<Request> {
    var h := UnpackHeader(data);
    if h.None? then None
    else if h.value.code == 1100 then
      var name := Slice(data, 23, 255);
      if |name| != 255 then None else Some(Registration(h.value.clientId, BeforeNul(name)))
    else if h.value.code == 1101 then
      var name, key := Slice(data, 23, 255), Slice(data, 278, 160);
      if |name| != 255 || |key| != 160 then None
      else Some(PublicKey(h.value.clientId, BeforeNul(name), key))
    else if h.value.code == 1104 || h.value.code == 1105 || h.value.code == 1106 then
      var id, name := Slice(data, 23, 16), Slice(data, 39, 255);
      if |id| != 16 || |name| != 255 then None
      else
        var verdict := if h.value.code == 1104 then Valid else if h.value.code == 1105 then Resend else Abort;
        Some(CrcStatus(verdict, h.value.clientId, id, BeforeNul(name)))
    else None
  }

  /** The fields fit their places in the layout. */
  predicate Fitting(r: Request) {
    match r
    case Registration(_, name) => IsText(name, NAME_SIZE)
    case PublicKey(_, name, key) => IsText(name, NAME_SIZE) && |key| == PUBLIC_KEY_SIZE
    case SendFile(_, contentSize, fileName, content) =>
      contentSize < WORD && IsText(fileName, NAME_SIZE) && 259 + |content| < WORD
    case CrcStatus(_, _, _, fileName) => IsText(fileName, NAME_SIZE)
  }

  lemma HeaderRoundTrip(id: Id, code: nat, payloadSize: nat, rest: Bytes)
    requires code < 0x1_0000 && payloadSize < WORD
    ensures UnpackHeader(RequestHeader(id, code, payloadSize) + rest)
         == Some(Header(id, CLIENT_VERSION, code, payloadSize))
  {
    hide Le, FromLe;
    var h := RequestHeader(id, code, payloadSize);
    var d := h + rest;
    assert d[..16] == id;
    assert d[16] == 2;
    assert d[17..19] == h[17..19] == Le(code, 2);
    assert d[19..23] == h[19..23] == Le(payloadSize, 4);
    Widths();
    FromLeOfLe(code, 2);
    FromLeOfLe(payloadSize, 4);
  }

  /** The header of a packed request, and where its payload starts. */
  lemma PackedRequest(r: Request, filler: Bytes)
    requires Fitting(r)
    ensures var h := RequestHeader(r.headerId, RequestCode(r), |Payload(r)|);
            && PackRequest(r) + filler == h + (Payload(r) + filler)
            && UnpackHeader(PackRequest(r) + filler)
               == Some(Header(r.headerId, CLIENT_VERSION, RequestCode(r), |Payload(r)|))
  {
    hide RequestHeader, UnpackHeader, Payload;
    var h := RequestHeader(r.headerId, RequestCode(r), |Payload(r)|);
    assert PackRequest(r) + filler == h + (Payload(r) + filler);
    PayloadFits(r);
    HeaderRoundTrip(r.headerId, RequestCode(r), |Payload(r)|, Payload(r) + filler);
  }

  lemma PayloadFits(r: Request)
    requires Fitting(r)
    ensures |Payload(r)| < WORD
  {}

  /** Two fields after the header. */
  lemma TwoFields(h: Bytes, a: Bytes, b: Bytes, filler: Bytes)
    ensures var d := h + ((a + b) + filler);
            Slice(d, |h|, |a|) == a && Slice(d, |h| + |a|, |b|) == b
  {
    hide Slice;
    var d := h + ((a + b) + filler);
    assert d == h + (a + (b + filler));
    assert d == (h + a) + (b + filler);
    SliceOfConcat(h, a, b + filler);
    SliceOfConcat(h + a, b, filler);
  }

  /** Every request but the file is recovered by its handler, whatever follows it in the packet. */
  lemma RequestRoundTrip(r: Request, filler: Bytes)
    requires Fitting(r) && !r.SendFile?
    ensures UnpackRequest(PackRequest(r) + filler) == Some(r)
  {
    hide UnpackHeader, RequestHeader, Slice, PackRequest, Fixed, BeforeNul;
    var h := RequestHeader(r.headerId, RequestCode(r), |Payload(r)|);
    PackedRequest(r, filler);
    match r {
      case Registration(_, name) =>
        SliceOfConcat(h, Fixed(name, NAME_SIZE), filler);
        FixedRoundTrip(name, NAME_SIZE);
      case PublicKey(_, name, key) =>
        assert Fixed(key, PUBLIC_KEY_SIZE) == key by {
          FixedIsWhole(key, PUBLIC_KEY_SIZE);
        }
        TwoFields(h, Fixed(name, NAME_SIZE), key, filler);
        FixedRoundTrip(name, NAME_SIZE);
      case CrcStatus(_, _, id, fileName) =>
        TwoFields(h, id, Fixed(fileName, NAME_SIZE), filler);
        FixedRoundTrip(fileName, NAME_SIZE);
    }
  }

  lemma FixedIsWhole(text: Bytes, size: nat)
    requires |text| == size
    ensures Fixed(text, size) == text
  {}

  // ----- responses -----

  function ResponseCode(r: Response): nat {
    match r
    case Registered(_) => 2100
    case RegistrationFailed => 2101
    case KeyReceived(_, _) => 2102
    case FileCrc(_, _, _, _) => 2103
    case Received => 2104
  }

  function ResponsePayload(r: Response): Bytes {
    match r
    case Registered(id) => id
    case RegistrationFailed => []
    case KeyReceived(id, wrapped) => id + wrapped
    case FileCrc(id, contentSize, fileName, checksum) =>
      id + (Le(contentSize, 4) + (Fixed(fileName, NAME_SIZE) + LeWord(checksum)))
    case Received => []
  }

  function ResponseHeader(code: nat, payloadSize: nat): (s: Bytes)
    ensures |s| == RESPONSE_HEADER_SIZE
  {
    [SERVER_VERSION as byte] + (Le(code, 2) + Le(payloadSize, 4))
  }

  function PackResponse(r: Response): (s: Bytes)
    ensures |s| == RESPONSE_HEADER_SIZE + |ResponsePayload(r)|
  {
    ResponseHeader(ResponseCode(r), |ResponsePayload(r)|) + ResponsePayload(r)
  }

  predicate FittingResponse(r: Response) {
    match r
    case KeyReceived(_, wrapped) => |wrapped| <= 1001
    case FileCrc(_, contentSize, fileName, _) => contentSize < WORD && IsText(fileName, NAME_SIZE)
    case _ => true
  }

  /** `TcpClientChannel::GetHeader`: the payload size it admits, 0 standing for an error too. */
  function AdmittedPayload(code: nat, payloadSize: nat): nat {
    if code < 2100 || code > 2104 then 0
    else if code == 2102 then (if payloadSize > PACKET_SIZE then 0 else payloadSize)
    else
      var expected := if code == 2100 then 16 else if code == 2103 then 279 else 0;
      if payloadSize != expected then 0 else payloadSize
  }

  /** `TcpClientChannel::Read` of one packet: an error, the message, or a copy that would run
      past the packet buffer. */
  datatype ReadResult = ReadError | ReadMessage(data: Bytes) | ReadsPastBuffer

  function ClientRead(packet: Bytes): ReadResult
    requires |packet| == PACKET_SIZE
  {
    var code, payloadSize := FromLe(packet[1..3]), FromLe(packet[3..7]);
    var admitted := AdmittedPayload(code, payloadSize);
    if admitted == 0 && code != 2101 && code != 2104 then ReadError
    else if admitted + RESPONSE_HEADER_SIZE > PACKET_SIZE then ReadsPastBuffer
    else ReadMessage(packet[..admitted + RESPONSE_HEADER_SIZE])
  }

  /** The client's view of a message it has read. */
  function UnpackResponse(data: Bytes): Option<Response> {
    if |data| < 7 then None
    else
      var code := FromLe(data[1..3]);
      var p := data[7..];
      if code == 2100 && |p| == 16 then Some(Registered(p))
      else if code == 2101 then Some(RegistrationFailed)
      else if code == 2102 && |p| >= 16 then Some(KeyReceived(p[..16], p[16..]))
      else if code == 2103 && |p| == 279 then
        Some(FileCrc(p[..16], FromLe(p[16..20]), BeforeNul(p[20..275]), FromLeWord(p[275..279])))
      else if code == 2104 then Some(Received)
      else None
  }

  lemma ResponseHeaderRoundTrip(code: nat, payloadSize: nat, rest: Bytes)
    requires code < 0x1_0000 && payloadSize < WORD
    ensures var d := ResponseHeader(code, payloadSize) + rest;
            && FromLe(d[1..3]) == code && FromLe(d[3..7]) == payloadSize && d[7..] == rest
  {
    hide Le, FromLe;
    var h := ResponseHeader(code, payloadSize);
    var d := h + rest;
    assert d[1..3] == h[1..3] == Le(code, 2);
    assert d[3..7] == h[3..7] == Le(payloadSize, 4);
    Widths();
    FromLeOfLe(code, 2);
    FromLeOfLe(payloadSize, 4);
  }

  /** The one packet of a response is read back whole, and means what was packed. */
  lemma ResponseRoundTrip(r: Response, padding: Bytes)
    requires FittingResponse(r)
    requires |PackResponse(r)| + |padding| == PACKET_SIZE
    ensures ClientRead(PackResponse(r) + padding) == ReadMessage(PackResponse(r))
    ensures UnpackResponse(PackResponse(r)) == Some(r)
  {
    hide Le, FromLe, ResponseHeader, LeWord, FromLeWord;
    var p := ResponsePayload(r);
    var h := ResponseHeader(ResponseCode(r), |p|);
    assert PackResponse(r) + padding == h + (p + padding);
    ResponseHeaderRoundTrip(ResponseCode(r), |p|, p + padding);
    ResponseHeaderRoundTrip(ResponseCode(r), |p|, p);
    assert (PackResponse(r) + padding)[..|p| + 7] == PackResponse(r);
    match r {
      case FileCrc(id, contentSize, fileName, checksum) =>
        var f := Fixed(fileName, NAME_SIZE);
        assert p[..16] == id && p[16..20] == Le(contentSize, 4) && p[20..275] == f && p[275..279] == LeWord(checksum);
        Widths();
        FromLeOfLe(contentSize, 4);
        FixedRoundTrip(fileName, NAME_SIZE);
        LeWordRoundTrip(checksum);
      case KeyReceived(id, wrapped) =>
        assert p[..16] == id && p[16..] == wrapped;
      case _ =>
    }
  }

  // ----- the layouts, byte by byte -----

  lemma {:induction false} LeOfFromLe(s: Bytes)
    ensures Le(FromLe(s), |s|) == s
  {
    hide Digit, ToByte;
    if s != [] {
      LeOfFromLe(s[1..]);
      DigitBound(s[0]);
      ByteOfDigit(s[0]);
      assert s == [s[0]] + s[1..];
    }
  }

  /** Two and four bytes, least significant first. */
  lemma LeTwo(a: byte, b: byte)
    ensures Le(Digit(a) + 256 * Digit(b), 2) == [a, b]
  {
    hide Digit;
    LeOfFromLe([a, b]);
    assert [a, b][1..] == [b] && [b][1..] == [];
  }

  lemma LeFour(a: byte, b: byte)
    ensures Le(Digit(a) + 256 * Digit(b), 4) == [a, b, 0, 0]
  {
    hide Digit, Le;
    LeOfFromLe([a, b, 0, 0]);
    FromLeStep(a, [b, 0, 0]);
    FromLeStep(b, [0, 0]);
    FromLeStep(0, [0]);
    FromLeStep(0, []);
    ZeroIsZero();
  }

  lemma FromLeStep(a: byte, s: Bytes)
    ensures FromLe([a] + s) == Digit(a) + 256 * FromLe(s) && FromLe([]) == 0
  {
    hide Digit;
    assert ([a] + s)[1..] == s;
  }

  lemma ZeroIsZero()
    ensures Digit(0) == 0
  {}

  lemma Codes()
    ensures Le(1100, 2) == [0x4C, 4] && Le(1101, 2) == [0x4D, 4] && Le(1102, 2) == [0x4E, 4]
    ensures Le(1104, 2) == [0x50, 4] && Le(1105, 2) == [0x51, 4] && Le(1106, 2) == [0x52, 4]
    ensures Le(2100, 2) == [0x34, 8] && Le(2101, 2) == [0x35, 8] && Le(2102, 2) == [0x36, 8]
    ensures Le(2103, 2) == [0x37, 8] && Le(2104, 2) == [0x38, 8]
  {
    hide Le;
    LeTwo(0x4C, 4);
    LeTwo(0x4D, 4);
    LeTwo(0x4E, 4);
    LeTwo(0x50, 4);
    LeTwo(0x51, 4);
    LeTwo(0x52, 4);
    LeTwo(0x34, 8);
    LeTwo(0x35, 8);
    LeTwo(0x36, 8);
    LeTwo(0x37, 8);
    LeTwo(0x38, 8);
  }

  lemma Sizes()
    ensures Le(0, 4) == [0, 0, 0, 0] && Le(16, 4) == [16, 0, 0, 0] && Le(255, 4) == [255, 0, 0, 0]
    ensures Le(415, 4) == [0x9F, 1, 0, 0] && Le(271, 4) == [0x0F, 1, 0, 0] && Le(279, 4) == [0x17, 1, 0, 0]
  {
    hide Le;
    LeFour(0, 0);
    LeFour(16, 0);
    LeFour(255, 0);
    LeFour(0x9F, 1);
    LeFour(0x0F, 1);
    LeFour(0x17, 1);
  }

  function Zeroes(n: nat): Bytes { seq(n, _ => 0) }

  lemma HeaderBytes(id: Id, code: nat, payloadSize: nat)
    ensures RequestHeader(id, code, payloadSize) == id + [2] + Le(code, 2) + Le(payloadSize, 4)
  {
    hide Le;
  }

  /** The packed requests: id, version 2, code and payload size, then the fields, names filled up
      with zeros to 255 bytes. */
  lemma RegistrationLayout(id: Id, name: Bytes)
    requires |name| <= 255
    ensures PackRequest(Registration(id, name)) == id + [2, 0x4C, 4, 255, 0, 0, 0] + name + Zeroes(255 - |name|)
  {
    hide Le, RequestHeader, Fixed, Zeroes;
    Codes();
    Sizes();
    HeaderBytes(id, 1100, 255);
    FilledUp(name);
  }

  lemma PublicKeyLayout(id: Id, name: Bytes, key: Bytes)
    requires |name| <= 255 && |key| == 160
    ensures PackRequest(PublicKey(id, name, key))
         == id + [2, 0x4D, 4, 0x9F, 1, 0, 0] + name + Zeroes(255 - |name|) + key
  {
    hide Le, RequestHeader, Fixed, Zeroes;
    Codes();
    Sizes();
    HeaderBytes(id, 1101, 415);
    FilledUp(name);
    FixedIsWhole(key, 160);
  }

  lemma SendFileLayout(id: Id, contentSize: nat, name: Bytes, content: Bytes)
    requires |name| <= 255
    ensures PackRequest(SendFile(id, contentSize, name, content))
         == id + [2, 0x4E, 4] + Le(259 + |content|, 4) + Le(contentSize, 4) + name + Zeroes(255 - |name|) + content
  {
    hide Le, RequestHeader, Fixed, Zeroes;
    Codes();
    var m := SendFile(id, contentSize, name, content);
    HeaderBytes(id, 1102, 259 + |content|);
    FilledUp(name);
    var size, text, zeros := Le(contentSize, 4), name, Zeroes(255 - |name|);
    assert Payload(m) == size + (text + zeros + content);
    hide PackRequest, Payload;
    assert PackRequest(m) == RequestHeader(id, 1102, 259 + |content|) + Payload(m) by { Packed(m); }
    Regroup(RequestHeader(id, 1102, 259 + |content|), size, text, zeros, content);
    assert id + [2] + Le(1102, 2) == id + [2, 0x4E, 4];
  }

  lemma Packed(m: Request)
    ensures PackRequest(m) == RequestHeader(m.headerId, RequestCode(m), |Payload(m)|) + Payload(m)
  {
    hide RequestHeader, Payload;
  }

  lemma Regroup(h: Bytes, a: Bytes, b: Bytes, c: Bytes, d: Bytes)
    ensures h + (a + (b + c + d)) == h + a + b + c + d
  {}

  lemma StatusBytes(verdict: Verdict, id: Id, other: Id, name: Bytes)
    requires |name| <= 255
    ensures var m := CrcStatus(verdict, id, other, name);
      PackRequest(m) == id + [2] + Le(RequestCode(m), 2) + [0x0F, 1, 0, 0] + other + name + Zeroes(255 - |name|)
  {
    hide Le, RequestHeader, Fixed, Zeroes;
    Sizes();
    HeaderBytes(id, RequestCode(CrcStatus(verdict, id, other, name)), 271);
    FilledUp(name);
  }

  lemma StatusLayout(id: Id, other: Id, name: Bytes)
    requires |name| <= 255
    ensures PackRequest(CrcStatus(Valid, id, other, name))
         == id + [2, 0x50, 4, 0x0F, 1, 0, 0] + other + name + Zeroes(255 - |name|)
    ensures PackRequest(CrcStatus(Resend, id, other, name))
         == id + [2, 0x51, 4, 0x0F, 1, 0, 0] + other + name + Zeroes(255 - |name|)
    ensures PackRequest(CrcStatus(Abort, id, other, name))
         == id + [2, 0x52, 4, 0x0F, 1, 0, 0] + other + name + Zeroes(255 - |name|)
  {
    hide Le, PackRequest, Zeroes;
    Codes();
    StatusBytes(Valid, id, other, name);
    StatusBytes(Resend, id, other, name);
    StatusBytes(Abort, id, other, name);
    StatusHead(id, 0x50);
    StatusHead(id, 0x51);
    StatusHead(id, 0x52);
  }

  lemma StatusHead(id: Id, code: byte)
    ensures id + [2] + [code, 4] + [0x0F, 1, 0, 0] == id + [2, code, 4, 0x0F, 1, 0, 0]
  {}

  lemma ResponseHeaderBytes(code: nat, payloadSize: nat)
    ensures ResponseHeader(code, payloadSize) == [3] + Le(code, 2) + Le(payloadSize, 4)
  {
    hide Le;
  }

  lemma ResponseHeaders()
    ensures ResponseHeader(2100, 16) == [3, 0x34, 8, 16, 0, 0, 0]
    ensures ResponseHeader(2101, 0) == [3, 0x35, 8, 0, 0, 0, 0]
    ensures ResponseHeader(2103, 279) == [3, 0x37, 8, 0x17, 1, 0, 0]
    ensures ResponseHeader(2104, 0) == [3, 0x38, 8, 0, 0, 0, 0]
  {
    hide Le, ResponseHeader;
    Codes();
    Sizes();
    ResponseHeaderBytes(2100, 16);
    ResponseHeaderBytes(2101, 0);
    ResponseHeaderBytes(2103, 279);
    ResponseHeaderBytes(2104, 0);
  }

  /** The packed responses: version 3, code and payload size, then the fields. */
  lemma ResponseLayouts(id: Id)
    ensures PackResponse(Registered(id)) == [3, 0x34, 8, 16, 0, 0, 0] + id
    ensures PackResponse(RegistrationFailed) == [3, 0x35, 8, 0, 0, 0, 0]
    ensures PackResponse(Received) == [3, 0x38, 8, 0, 0, 0, 0]
  {
    hide Le, ResponseHeader;
    ResponseHeaders();
  }

  lemma PackedResponse(m: Response)
    ensures PackResponse(m) == ResponseHeader(ResponseCode(m), |ResponsePayload(m)|) + ResponsePayload(m)
  {
    hide ResponseHeader, ResponsePayload;
  }

  lemma KeyHeader(n: nat)
    ensures ResponseHeader(2102, n) == [3, 0x36, 8] + Le(n, 4)
  {
    hide Le, ResponseHeader;
    Codes();
    ResponseHeaderBytes(2102, n);
  }

  lemma KeyLayout(id: Id, wrapped: Bytes)
    ensures PackResponse(KeyReceived(id, wrapped)) == [3, 0x36, 8] + Le(16 + |wrapped|, 4) + id + wrapped
  {
    hide Le, ResponseHeader, PackResponse;
    KeyHeader(16 + |wrapped|);
    PackedResponse(KeyReceived(id, wrapped));
    Rejoin([3, 0x36, 8] + Le(16 + |wrapped|, 4), id, wrapped);
  }

  lemma Rejoin(h: Bytes, a: Bytes, b: Bytes)
    ensures h + (a + b) == h + a + b
  {}

  lemma ChecksumLayout(id: Id, contentSize: nat, name: Bytes, checksum: bv32)
    requires |name| <= 255
    ensures PackResponse(FileCrc(id, contentSize, name, checksum))
         == [3, 0x37, 8, 0x17, 1, 0, 0] + id + Le(contentSize, 4) + name + Zeroes(255 - |name|) + LeWord(checksum)
  {
    hide Le, LeWord, Fixed, Zeroes, ResponseHeader, PackResponse;
    var m := FileCrc(id, contentSize, name, checksum);
    ResponseHeaders();
    PackedResponse(m);
    FilledUp(name);
    assert ResponsePayload(m) == id + (Le(contentSize, 4) + (name + Zeroes(255 - |name|) + LeWord(checksum)));
    hide ResponsePayload;
    RegroupLeft([3, 0x37, 8, 0x17, 1, 0, 0], id, Le(contentSize, 4), name, Zeroes(255 - |name|), LeWord(checksum));
  }

  lemma RegroupLeft(h: Bytes, a: Bytes, b: Bytes, c: Bytes, d: Bytes, e: Bytes)
    ensures h + (a + (b + (c + d + e))) == h + a + b + c + d + e
  {}

  /** A checksum goes out least significant byte first. */
  lemma WordLayout()
    ensures LeWord(0x0403_0201) == [1, 2, 3, 4]
  {}

  lemma LongTextIsCut(text: Bytes, size: nat)
    requires |text| > size
    ensures Fixed(text, size) == text[..size]
  {}

  lemma FilledUp(name: Bytes)
    requires |name| <= 255
    ensures Fixed(name, 255) == name + Zeroes(255 - |name|)
  {}

  /** What can not be read: a header cut short, fields cut short, the file's code or an unknown one. */
  lemma UnreadableExactly(data: Bytes)
    ensures |data| >= 23 ==> UnpackHeader(data).Some?
    ensures UnpackHeader(data).Some? ==> |data| >= 23 && UnpackHeader(data).value.code == FromLe(data[17..19])
    ensures UnpackRequest(data).None? <==>
      |data| < 23
      || var code := FromLe(data[17..19]);
         !((code == 1100 && |data| >= 278) || (code == 1101 && |data| >= 438)
           || ((code == 1104 || code == 1105 || code == 1106) && |data| >= 294))
  {
    hide FromLe, BeforeNul;
  }

  /** What the client makes of any packet: the sizes that its header check admits. */
  lemma ClientReadExactly(packet: Bytes)
    requires |packet| == 1024
    ensures var code, size := FromLe(packet[1..3]), FromLe(packet[3..7]);
      ClientRead(packet) ==
        if code == 2100 && size == 16 then ReadMessage(packet[..23])
        else if code == 2101 || code == 2104 then ReadMessage(packet[..7])
        else if code == 2102 && 1 <= size <= 1017 then ReadMessage(packet[..7 + size])
        else if code == 2102 && 1018 <= size <= 1024 then ReadsPastBuffer
        else if code == 2103 && size == 279 then ReadMessage(packet[..286])
        else ReadError
  {
    hide FromLe;
  }
}
