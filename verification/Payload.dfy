/** The file payload from the client's disk to the server's: padding, encryption, and back. */
module Payload {
  import opened Octets
  import opened Blocks
  import opened BlockProcessing
  import opened Modes
  import opened Protocol
  import opened Framing
  import opened Wrappers

  // ----- FileHandler: padding to whole blocks with zeros -----

  /** `GetFileLengthWithPadding`. */
  function PaddedLength(count: nat): nat {
    var rest := if count % 16 > 0 then count % 16 else 16;
    count + (16 - rest)
  }

  /** The file, and fewer than 16 zeros up to a multiple of 16. */
  predicate FileAndZeros(file: Bytes, r: Bytes) {
    && |file| <= |r| < |file| + 16 && |r| % 16 == 0
    && r[..|file|] == file
    && (forall i :: |file| <= i < |r| ==> r[i] == 0)
  }

  function ZeroPadded(file: Bytes): (r: Bytes)
    ensures |r| == PaddedLength(|file|)
  {
    file + seq(PaddedLength(|file|) - |file|, _ => 0)
  }

  lemma PaddedFile(file: Bytes)
    ensures FileAndZeros(file, ZeroPadded(file))
  {}

  /** `ReadFileWithPadding`: zeros are appended one at a time. */
  method ReadFileWithPadding(file: Bytes) returns (buffer: Bytes)
    ensures buffer == ZeroPadded(file)
    ensures |file| <= |buffer| < |file| + 16 && |buffer| % 16 == 0
    ensures buffer[..|file|] == file && forall i :: |file| <= i < |buffer| ==> buffer[i] == 0
  {
    var count := |file|;
    var idx := 16 - (if count % 16 > 0 then count % 16 else 16);
    buffer := file;
    for i := count to count + idx
      invariant buffer == file + seq(i - count, _ => 0)
    {
      buffer := buffer + [0];
    }
  }

  /** The padded length is the least multiple of 16 that holds the file. */
  lemma PaddingIsLeast(count: nat, n: nat)
    ensures PaddedLength(count) % 16 == 0 && count <= PaddedLength(count)
    ensures count <= n && n % 16 == 0 ==> PaddedLength(count) <= n
  {}

  // ----- PKCS padding (RFC 5652, section 6.3) -----

  function PkcsPadded(s: Bytes): (r: Bytes)
    ensures |r| % 16 == 0 && |r| == |s| + 16 - |s| % 16
    ensures r[..|s|] == s && forall i :: |s| <= i < |r| ==> Digit(r[i]) == |r| - |s|
  {
    var k := 16 - |s| % 16;
    s + seq(k, _ => ToByte(k))
  }

  // ----- bytes as blocks -----

  function ToBlocks(s: Bytes): (r: seq<Block>)
    requires |s| % 16 == 0
    ensures |r| == |s| / 16
    ensures forall k :: 0 <= k < |r| ==> r[k] == s[16 * k..16 * k + 16]
    decreases |s|
  {
    if s == [] then [] else
      var b: Block := s[..16];
      [b] + ToBlocks(s[16..])
  }

  function FromBlocks(bs: seq<Block>): (r: Bytes)
    ensures |r| == 16 * |bs|
    decreases |bs|
  {
    if bs == [] then [] else bs[0] + FromBlocks(bs[1..])
  }

  lemma {:induction false} BytesOfBlocks(s: Bytes)
    requires |s| % 16 == 0
    ensures FromBlocks(ToBlocks(s)) == s
    decreases |s|
  {
    if s != [] {
      BytesOfBlocks(s[16..]);
      var bs := ToBlocks(s);
      assert bs[0] == s[..16] && bs[1..] == ToBlocks(s[16..]);
      assert s == s[..16] + s[16..];
    }
  }

  lemma {:induction false} BlocksOfBytes(bs: seq<Block>)
    ensures ToBlocks(FromBlocks(bs)) == bs
    decreases |bs|
  {
    if bs != [] {
      BlocksOfBytes(bs[1..]);
      var s := FromBlocks(bs);
      assert s[..16] == bs[0] && s[16..] == FromBlocks(bs[1..]);
      assert bs == [bs[0]] + bs[1..];
    }
  }

  // ----- AESWrapper.encrypt and keys_handler.decrypt -----

  type Key = Block

  /** The block cipher under every key, with its inverse. */
  datatype Cipher = Cipher(enc: (Key, Block) -> Block, dec: (Key, Block) -> Block)

  ghost predicate Invertible(c: Cipher) {
    forall k: Key, b: Block :: c.dec(k, c.enc(k, b)) == b
  }

  function Enc(c: Cipher, key: Key): Block -> Block { (b: Block) => c.enc(key, b) }
  function Dec(c: Cipher, key: Key): Block -> Block { (b: Block) => c.dec(key, b) }

  /** CBC from a zero initialisation vector over the padded plaintext. */
  function Encrypt(c: Cipher, key: Key, plain: Bytes): (r: Bytes)
    ensures |r| == |plain| + 16 - |plain| % 16
  {
    FromBlocks(CbcEncrypt(Enc(c, key), ZERO, ToBlocks(PkcsPadded(plain))))
  }

  /** CBC decryption, then a cut to the announced size. No result without a key or for a body
      that is not whole blocks. */
  function Decrypt(c: Cipher, key: Option<Key>, body: Bytes, contentSize: nat): Option<Bytes> {
    if key.None? || |body| % 16 != 0 then None
    else
      var plain := FromBlocks(CbcDecrypt(Dec(c, key.value), ZERO, ToBlocks(body)));
      Some(if contentSize < |plain| then plain[..contentSize] else plain)
  }

  /** The cut keeps what comes first, and nothing comes after the body's own length. */
  lemma DecryptCuts(c: Cipher, key: Option<Key>, body: Bytes, contentSize: nat)
    ensures var r := Decrypt(c, key, body, contentSize);
      && (r.Some? <==> key.Some? && |body| % 16 == 0)
      && (r.Some? ==> |r.value| == if contentSize < |body| then contentSize else |body|)
      && (r.Some? ==> r.value == Decrypt(c, key, body, |body|).value[..|r.value|])
  {
    hide CbcDecrypt;
  }

  /** Section 6.2 of SP 800-38A over the padded plaintext, block by block, from a vector of zeros. */
  lemma EncryptChains(c: Cipher, key: Key, plain: Bytes, k: nat)
    requires 16 * k + 16 <= |Encrypt(c, key, plain)|
    ensures var r, p := Encrypt(c, key, plain), PkcsPadded(plain);
      r[16 * k..16 * k + 16]
      == c.enc(key, Xor(p[16 * k..16 * k + 16], if k == 0 then seq(16, _ => 0) else r[16 * k - 16..16 * k]))
  {
    hide Xor, CbcEncrypt, PkcsPadded, ToBlocks, FromBlocks;
    var ps := ToBlocks(PkcsPadded(plain));
    var cs := CbcEncrypt(Enc(c, key), ZERO, ps);
    BlocksOfBytes(cs);
    ChainAt(Enc(c, key), ZERO, ps, k);
    assert ZERO == seq(16, _ => 0);
    assert cs[k] == FromBlocks(cs)[16 * k..16 * k + 16];
    assert k > 0 ==> cs[k - 1] == FromBlocks(cs)[16 * (k - 1)..16 * (k - 1) + 16];
  }

  lemma ChainAt(enc: Block -> Block, iv: Block, ps: seq<Block>, k: nat)
    requires k < |ps|
    ensures CbcEncrypt(enc, iv, ps)[k] == enc(Xor(ps[k], Before(iv, CbcEncrypt(enc, iv, ps), k)))
  {
    hide Xor, CbcEncrypt;
    CbcChainUnique(enc, iv, ps, CbcEncrypt(enc, iv, ps));
  }

  /** The cut undoes the padding, and the decryption the encryption. */
  lemma DecryptEncrypt(c: Cipher, key: Key, plain: Bytes)
    requires Invertible(c)
    ensures Decrypt(c, Some(key), Encrypt(c, key, plain), |plain|) == Some(plain)
  {
    hide ToBlocks, FromBlocks, CbcEncrypt, CbcDecrypt;
    var padded := PkcsPadded(plain);
    var cs := CbcEncrypt(Enc(c, key), ZERO, ToBlocks(padded));
    BlocksOfBytes(cs);
    CbcInverse(Enc(c, key), Dec(c, key), ZERO, ToBlocks(padded));
    BytesOfBlocks(padded);
    assert padded[..|plain|] == plain;
  }

  /** The encryption is what one call of the block routine leaves in a buffer that starts with
      the zero vector. */
  lemma EncryptRunsRoutine(unit: Unit, widths: seq<Width>, c: Cipher, key: Key, plain: Bytes)
    ensures var bs := ToBlocks(PkcsPadded(plain));
            var r := CbcEncryptRun(unit, widths, CBC_ENCRYPT, Enc(c, key), 1, 1, [ZERO] + bs, |bs|);
            FromBlocks(r[1..]) == Encrypt(c, key, plain)
  {
    hide ToBlocks, FromBlocks, CbcEncrypt, CbcEncryptRun;
    var bs := ToBlocks(PkcsPadded(plain));
    var m := [ZERO] + bs;
    CbcEncryptChains(unit, widths, Enc(c, key), 1, 1, m, |bs|);
    var r := CbcEncryptRun(unit, widths, CBC_ENCRYPT, Enc(c, key), 1, 1, m, |bs|);
    assert m[1..1 + |bs|] == bs && r[1..1 + |bs|] == r[1..];
  }

  // ----- the whole pipeline -----

  /** The message `SendEncryptedFileToServer` builds. */
  function FileMessage(c: Cipher, key: Key, id: Id, fileName: Bytes, file: Bytes): Request {
    var padded := ZeroPadded(file);
    SendFile(id, |padded|, fileName, Encrypt(c, key, padded))
  }

  /** The files whose message survives the framing: those padded to at most 720 bytes or to
      more than 1008. */
  predicate Deliverable(file: Bytes) {
    PaddedLength(|file|) <= 720 || 1008 < PaddedLength(|file|)
  }

  lemma DeliverableSizes(file: Bytes)
    ensures Deliverable(file) <==> |file| <= 720 || 1008 < |file|
  {}

  /** What the server decrypts from the packets the client wrote is the zero-padded file, for
      exactly the deliverable files; the others are rejected. */
  lemma Pipeline(c: Cipher, key: Key, id: Id, fileName: Bytes, file: Bytes, memory: Bytes, later: seq<Bytes>)
    requires Invertible(c) && IsText(fileName, 255) && |file| < 0x8000_0000
    requires var r := FileMessage(c, key, id, fileName, file);
             PackRequest(r) <= memory && PacketCount(|PackRequest(r)|) * PACKET_SIZE <= |memory|
    ensures var packets := Packets(memory, |PackRequest(FileMessage(c, key, id, fileName, file))|);
            packets != [] &&
            var (result, rest) := UnpackFile(packets[0], packets[1..] + later);
            && (result.Unpacked? <==> |file| <= 720 || 1008 < |file|)
            && (result.Rejected? <==> 720 < |file| <= 1008)
            && (result.Unpacked? ==>
                && rest == later
                && result.request.SendFile? && result.request.headerId == id && result.request.fileName == fileName
                && var content := Decrypt(c, Some(key), result.request.content, result.request.contentSize);
                && content.Some? && FileAndZeros(file, content.value))
  {
    hide Encrypt, Decrypt, PackRequest, Packets, UnpackFile, ZeroPadded, FileAndZeros;
    var padded := ZeroPadded(file);
    PaddingIsLeast(|file|, |file|);
    PaddedFile(file);
    DeliverableSizes(file);
    var r := FileMessage(c, key, id, fileName, file);
    assert |r.content| == |padded| + 16;
    assert Deliverable(file) <==> InFramingDomain(|r.content|);
    FileMessageDelivered(r, memory, later);
    DecryptEncrypt(c, key, padded);
  }
}
