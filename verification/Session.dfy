/** One session from the first message to the disk, packet by packet, client and server taking
    turns. */
module Session {
  import opened Octets
  import opened Blocks
  import opened Protocol
  import opened Framing
  import opened Payload
  import opened Paths
  import opened Store
  import opened Server
  import opened Client
  import opened Wrappers
  import Crc

  // ----- one message each way -----

  /** What lies in the client's memory behind a message: its last packet reaches into it. */
  type Filler = b: Bytes | |b| >= 1023 witness seq(1023, _ => 0)

  function PacketsOf(r: Request, behind: Filler): seq<Bytes> {
    Packets(PackRequest(r) + behind, |PackRequest(r)|)
  }

  /** What the client makes of the first packet of a response: None for a message it does not admit. */
  function ClientTakes(r: Response): Option<Response> {
    var packets := ServerPackets(PackResponse(r));
    if packets == [] || |packets[0]| != PACKET_SIZE then None
    else
      match ClientRead(packets[0])
      case ReadMessage(data) => UnpackResponse(data)
      case _ => None
  }

  lemma ClientTakesFitting(r: Response)
    requires FittingResponse(r)
    ensures ClientTakes(r) == Some(r)
  {
    hide PackResponse, ClientRead, UnpackResponse;
    ResponseSize(r);
    ResponseRoundTrip(r, seq(PACKET_SIZE - |PackResponse(r)|, _ => 0));
  }

  lemma ResponseSize(r: Response)
    requires FittingResponse(r)
    ensures 0 < |PackResponse(r)| <= PACKET_SIZE
  {}

  /** `n` round trips at most, from a client that has just sent `out`: its packets to the server,
      the server's first packet back. The result is the tables, the client, and all it has sent. A
      refusal's second 2101 is not read. */
  function Exchange(env: Env, behind: Request -> Filler, t: Tables, c: ClientState, out: seq<Request>, x: Chance,
                    n: nat)
    : (Tables, ClientState, seq<Request>)
    decreases n
  {
    if n == 0 || out == [] || PacketsOf(out[0], behind(out[0])) == [] then (t, c, out)
    else
      var packets := PacketsOf(out[0], behind(out[0]));
      var h := Dispatch(env, t, packets[0], packets[1..], x).0;
      if h.outcome != Served || h.responses == [] then (h.tables, c, out)
      else
        match ClientTakes(h.responses[0])
        case None => (h.tables, c.(phase := Ended), out)
        case Some(r) =>
          var (c', out') := Receive(env, c, r);
          var (t'', c'', rest) := Exchange(env, behind, h.tables, c', out', x, n - 1);
          (t'', c'', out + rest)
  }

  lemma ExchangeNothing(env: Env, behind: Request -> Filler, t: Tables, c: ClientState, x: Chance, n: nat)
    ensures Exchange(env, behind, t, c, [], x, n) == (t, c, [])
  {}

  lemma PacketsHandled(env: Env, t: Tables, m: Request, behind: Filler, x: Chance)
    requires Fitting(m)
    ensures var packets := PacketsOf(m, behind);
      packets != [] && Dispatch(env, t, packets[0], packets[1..], x).0 == Handle(env, t, Some(m), x)
  {
    hide PackRequest, Packets, Dispatch, Handle;
    PacketsAreRequests(env, t, m, PackRequest(m) + behind, [], x);
    var packets := PacketsOf(m, behind);
    assert packets[1..] + [] == packets[1..];
  }

  /** On messages that fit their layouts the packets make no difference: one round trip is one
      request handled and its response received. */
  lemma ExchangeOnce(env: Env, behind: Request -> Filler, t: Tables, c: ClientState, m: Request, x: Chance, n: nat)
    requires n > 0 && Fitting(m)
    ensures var h := Handle(env, t, Some(m), x);
            if h.outcome != Served || h.responses == [] then Exchange(env, behind, t, c, [m], x, n) == (h.tables, c, [m])
            else FittingResponse(h.responses[0]) ==>
              var (c', out') := Receive(env, c, h.responses[0]);
              var end := Exchange(env, behind, h.tables, c', out', x, n - 1);
              Exchange(env, behind, t, c, [m], x, n) == (end.0, end.1, [m] + end.2)
  {
    hide Handle, Receive, PacketsOf, Dispatch, ClientTakes, Fitting, FittingResponse;
    PacketsHandled(env, t, m, behind(m), x);
    var h := Handle(env, t, Some(m), x);
    if h.responses != [] && FittingResponse(h.responses[0]) {
      ClientTakesFitting(h.responses[0]);
    }
  }

  // ----- the session of a new client -----

  /** What the layouts hold: names without NUL of at most 255 bytes, a file size that the client's
      `int` holds, a wrapped key that one packet holds. */
  predicate FitsLayouts(config: Config, wrapped: Bytes) {
    && IsText(config.name, NAME_SIZE) && IsText(config.fileName, NAME_SIZE)
    && |config.publicKey| == PUBLIC_KEY_SIZE && |config.file| < 0x8000_0000 && |wrapped| <= 1001
  }

  /** A client that may register and send a file no one else has named. */
  predicate Admissible(env: Env, t: Tables, config: Config, x: Chance) {
    && IsAscii(config.name) && !NameTaken(t, config.name) && x.newId !in t.clients && x.newId != ZERO
    && config.fileName !in t.files
    && env.wrap(config.publicKey, x.newKey).Some?
    && env.unwrap(config.publicKey, env.wrap(config.publicKey, x.newKey).value) == x.newKey
    && FitsLayouts(config, env.wrap(config.publicKey, x.newKey).value)
  }

  function AfterIntroductions(t: Tables, config: Config, x: Chance): Tables
    requires x.newId !in t.clients
  {
    SetKeys(AddClient(t, x.newId, config.name).0, x.newId, config.publicKey, x.newKey)
  }

  function WithKey(config: Config, newId: Id): ClientState {
    Initial(config, newId).(calculatedCrc := TrueCrc(config))
  }

  /** The first round trip: an id. */
  lemma Naming(env: Env, t: Tables, config: Config, x: Chance)
    requires Admissible(env, t, config, x)
    ensures var (c0, out0) := Start(Initial(config, ZERO));
      var m0, m1 := RegistrationMessage(config), PublicKey(x.newId, config.name, config.publicKey);
      && out0 == [m0] && Fitting(m0)
      && Handle(env, t, Some(m0), x) == Handled(AddClient(t, x.newId, config.name).0, [Registered(x.newId)], Served)
      && Receive(env, c0, Registered(x.newId)).0 == Initial(config, x.newId).(queue := [m1])
      && Receive(env, c0, Registered(x.newId)).1 == [m1]
  {
    hide FileMessage, TrueCrc;
  }

  /** The second: a key, in answer to which the file goes out. */
  lemma Keying(env: Env, t: Tables, config: Config, x: Chance)
    requires Admissible(env, t, config, x)
    ensures var m1 := PublicKey(x.newId, config.name, config.publicKey);
      var r := KeyReceived(x.newId, env.wrap(config.publicKey, x.newKey).value);
      && Fitting(m1) && FittingResponse(r)
      && Handle(env, AddClient(t, x.newId, config.name).0, Some(m1), x)
         == Handled(AfterIntroductions(t, config, x), [r], Served)
      && var c1 := Initial(config, x.newId).(queue := [m1]);
         Receive(env, c1, r).0 == WithKey(config, x.newId)
         && Receive(env, c1, r).1 == [FileMessage(env.cipher, x.newKey, x.newId, config.fileName, config.file)]
  {
    hide FileMessage, TrueCrc;
  }

  /** The first two round trips: an id and a key. */
  lemma Introductions(env: Env, behind: Request -> Filler, t: Tables, config: Config, x: Chance, n: nat)
    requires Admissible(env, t, config, x)
    ensures var (c0, out0) := Start(Initial(config, ZERO));
      var message := FileMessage(env.cipher, x.newKey, x.newId, config.fileName, config.file);
      var introductions := [RegistrationMessage(config), PublicKey(x.newId, config.name, config.publicKey)];
      var end := Exchange(env, behind, AfterIntroductions(t, config, x), WithKey(config, x.newId), [message], x, n);
      Exchange(env, behind, t, c0, out0, x, n + 2) == (end.0, end.1, introductions + end.2)
  {
    hide FileMessage, TrueCrc, Start, RegistrationMessage, Handle, Receive, Exchange,
         AddClient, SetKeys, WithKey, Initial;
    Naming(env, t, config, x);
    Keying(env, t, config, x);
    var c0 := Start(Initial(config, ZERO)).0;
    var t1 := AddClient(t, x.newId, config.name).0;
    var m0, m1 := RegistrationMessage(config), PublicKey(x.newId, config.name, config.publicKey);
    ExchangeOnce(env, behind, t1, Initial(config, x.newId).(queue := [m1]), m1, x, n + 1);
    ExchangeOnce(env, behind, t, c0, m0, x, n + 2);
    var message := FileMessage(env.cipher, x.newKey, x.newId, config.fileName, config.file);
    var end := Exchange(env, behind, AfterIntroductions(t, config, x), WithKey(config, x.newId), [message], x, n);
    assert [m0] + ([m1] + end.2) == [m0, m1] + end.2;
  }

  lemma FileMessageFits(env: Env, config: Config, id: Id, key: Key, wrapped: Bytes)
    requires FitsLayouts(config, wrapped)
    ensures Fitting(FileMessage(env.cipher, key, id, config.fileName, config.file))
    ensures FittingResponse(FileCrc(id, |ZeroPadded(config.file)|, config.fileName, TrueCrc(config)))
    ensures Fitting(StatusMessage(WithKey(config, id), Valid))
  {
    hide Encrypt, ZeroPadded, TrueCrc;
    PaddingIsLeast(|config.file|, 0x8000_0000);
  }

  /** The last two round trips of a deliverable file: stored, compared, approved, written. */
  lemma Delivery(env: Env, behind: Request -> Filler, t: Tables, config: Config, id: Id, key: Key, wrapped: Bytes,
                 x: Chance, n: nat)
    requires Invertible(env.cipher) && Deliverable(config.file) && FitsLayouts(config, wrapped)
    requires id in t.clients && t.clients[id].aesKey == Some(key) && id != ZERO
    requires config.fileName in t.files ==> Owns(t, id, config.fileName)
    ensures var c := WithKey(config, id);
            var message := FileMessage(env.cipher, key, id, config.fileName, config.file);
            var end := Exchange(env, behind, t, c, [message], x, n + 2);
            && end.0.disk == Approved(env, t, c, ZeroPadded(config.file), x.opens)
            && end.1.phase == Ended && end.2 == [message, StatusMessage(c, Valid)]
            && end.0.clients == t.clients && end.0.files == t.files[config.fileName := FileRow(id, true)]
            && Stored(env, end.0, c, ZeroPadded(config.file))
  {
    hide Encrypt, Decrypt, ZeroPadded, Exchange, Handle, FullPath, FitsLayouts;
    var c, padded := WithKey(config, id), ZeroPadded(config.file);
    var message, approval := FileMessage(env.cipher, key, id, config.fileName, config.file), StatusMessage(c, Valid);
    FileMessageFits(env, config, id, key, wrapped);
    FileIsStored(env, t, config, id, key, x);
    var h := Handle(env, t, Some(message), x);
    assert Receive(env, c, h.responses[0]) == (c, [approval]);
    StoredAnswers(env, h.tables, c, padded, x);
    var h2 := Handle(env, h.tables, Some(approval), x);
    assert Receive(env, c, Received) == (c.(phase := Ended), []);
    ExchangeOnce(env, behind, h.tables, c, approval, x, n + 1);
    ExchangeOnce(env, behind, t, c, message, x, n + 2);
    ExchangeNothing(env, behind, h2.tables, c.(phase := Ended), x, n);
    assert [message] + ([approval] + []) == [message, approval];
  }

  lemma FileIsStored(env: Env, t: Tables, config: Config, id: Id, key: Key, x: Chance)
    requires Invertible(env.cipher) && Deliverable(config.file)
    requires id in t.clients && t.clients[id].aesKey == Some(key)
    requires config.fileName in t.files ==> Owns(t, id, config.fileName)
    ensures var message := FileMessage(env.cipher, key, id, config.fileName, config.file);
            var h := Handle(env, t, Some(message), x);
            var padded := ZeroPadded(config.file);
            && h.outcome == Served && h.tables.disk == t.disk && h.tables.clients == t.clients
            && h.tables.files == t.files[config.fileName := FileRow(id, false)]
            && h.responses == [FileCrc(id, |padded|, config.fileName, TrueCrc(config))]
            && Stored(env, h.tables, WithKey(config, id), padded)
  {
    hide Encrypt, Decrypt, ZeroPadded, FullPath;
    var padded := ZeroPadded(config.file);
    PaddingIsLeast(|config.file|, |config.file|);
    assert |Encrypt(env.cipher, key, padded)| == |padded| + 16;
    DecryptEncrypt(env.cipher, key, padded);
  }

  lemma Introduced(t: Tables, config: Config, x: Chance)
    requires x.newId !in t.clients
    ensures AfterIntroductions(t, config, x)
         == t.(clients := t.clients[x.newId := ClientRow(config.name, Some(config.publicKey), Some(x.newKey))])
  {}

  /** The two messages of a transfer, and the approval. */
  lemma TransferMessages(env: Env, config: Config, id: Id, key: Key)
    ensures FileMessage(env.cipher, key, id, config.fileName, config.file)
         == SendFile(id, |ZeroPadded(config.file)|, config.fileName, Encrypt(env.cipher, key, ZeroPadded(config.file)))
    ensures StatusMessage(WithKey(config, id), Valid) == CrcStatus(Valid, id, id, config.fileName)
    ensures OwnPath(env, WithKey(config, id)) == FullPath(env.fs, id, config.fileName)
  {
    hide Encrypt, ZeroPadded, TrueCrc, FullPath;
  }

  /** Tables `t'` are `t` with the file of client `id` approved: the row is verified, and the padded
      file is on disk if it opens there. */
  predicate Delivered(env: Env, t: Tables, t': Tables, id: Id, fileName: Bytes, file: Bytes, padded: Bytes, opens: bool) {
    && FileAndZeros(file, padded)
    && t'.files == t.files[fileName := FileRow(id, true)]
    && t'.disk == if opens then t.disk[env.fs.file(FullPath(env.fs, id, fileName)) := padded] else t.disk
  }

  lemma DeliveredBy(env: Env, behind: Request -> Filler, t: Tables, config: Config, id: Id, key: Key, wrapped: Bytes,
                    x: Chance, n: nat)
    requires Invertible(env.cipher) && Deliverable(config.file) && FitsLayouts(config, wrapped)
    requires id in t.clients && t.clients[id].aesKey == Some(key) && id != ZERO
    requires config.fileName in t.files ==> Owns(t, id, config.fileName)
    ensures var padded := ZeroPadded(config.file);
      var file := SendFile(id, |padded|, config.fileName, Encrypt(env.cipher, key, padded));
      var end := Exchange(env, behind, t, WithKey(config, id), [file], x, n + 2);
      && end.2 == [file, CrcStatus(Valid, id, id, config.fileName)]
      && end.1.phase == Ended && end.0.clients == t.clients
      && Delivered(env, t, end.0, id, config.fileName, config.file, padded, x.opens)
  {
    hide Encrypt, ZeroPadded, Exchange, FullPath, FitsLayouts, FileAndZeros, FileMessage, StatusMessage, WithKey, Stored,
         OwnPath;
    Delivery(env, behind, t, config, id, key, wrapped, x, n);
    TransferMessages(env, config, id, key);
    PaddedFile(config.file);
  }

  /** A new client's session, over packets and whatever bytes fill them up. Of a file of at most 720
      bytes or more than 1008 exactly four messages go out: name, public key, file, approval. The
      client has a row with its keys, the file a verified one, and the file with its zeros is on
      the server's disk, if it opens there. Another file is refused, and the disk stays as it was. */
  lemma WholeSession(env: Env, behind: Request -> Filler, t: Tables, config: Config, x: Chance, n: nat)
    requires Invertible(env.cipher) && Admissible(env, t, config, x)
    ensures var (c0, out0) := Start(Initial(config, ZERO));
            var end := Exchange(env, behind, t, c0, out0, x, n + 4);
            var id, name, padded := x.newId, config.fileName, ZeroPadded(config.file);
            var greetings := [Registration(seq(16, _ => 0), config.name), PublicKey(id, config.name, config.publicKey)];
            var file := SendFile(id, |padded|, name, Encrypt(env.cipher, x.newKey, padded));
            && end.0.clients == t.clients[id := ClientRow(config.name, Some(config.publicKey), Some(x.newKey))]
            && if |config.file| <= 720 || 1008 < |config.file|
               then end.2 == greetings + [file, CrcStatus(Valid, id, id, name)] && end.1.phase == Ended
                    && Delivered(env, t, end.0, id, name, config.file, padded, x.opens)
               else end.2 == greetings + [file] && end.0.disk == t.disk && end.0.files == t.files
  {
    hide Encrypt, ZeroPadded, Exchange, Handle, FileMessage, StatusMessage, FitsLayouts, FullPath, FileAndZeros;
    assert ZERO == seq(16, _ => 0);
    Introduced(t, config, x);
    hide AfterIntroductions, Start, Initial, WithKey;
    DeliverableSizes(config.file);
    var wrapped := env.wrap(config.publicKey, x.newKey).value;
    Introductions(env, behind, t, config, x, n + 2);
    TransferMessages(env, config, x.newId, x.newKey);
    var t2, c := AfterIntroductions(t, config, x), WithKey(config, x.newId);
    var message := FileMessage(env.cipher, x.newKey, x.newId, config.fileName, config.file);
    if Deliverable(config.file) {
      DeliveredBy(env, behind, t2, config, x.newId, x.newKey, wrapped, x, n);
    } else {
      FileIsRefused(env, t2, config, x.newId, x.newKey, x);
      FileMessageFits(env, config, x.newId, x.newKey, wrapped);
      ExchangeOnce(env, behind, t2, c, message, x, n + 2);
    }
  }

  // ----- the session of a registered client -----

  /** A client with a row of its own, whose file no one else has named. */
  predicate Known(env: Env, t: Tables, config: Config, id: Id, x: Chance) {
    && id in t.clients && id != seq(16, _ => 0)
    && (config.fileName in t.files ==> t.files[config.fileName].owner == id)
    && env.wrap(config.publicKey, x.newKey).Some?
    && env.unwrap(config.publicKey, env.wrap(config.publicKey, x.newKey).value) == x.newKey
    && FitsLayouts(config, env.wrap(config.publicKey, x.newKey).value)
  }

  /** The one round trip that a registered client's session has before the file. */
  lemma Rekeying(env: Env, behind: Request -> Filler, t: Tables, config: Config, id: Id, x: Chance, n: nat)
    requires Known(env, t, config, id, x)
    ensures var (c0, out0) := Start(Initial(config, id));
      var message := FileMessage(env.cipher, x.newKey, id, config.fileName, config.file);
      var end := Exchange(env, behind, SetKeys(t, id, config.publicKey, x.newKey), WithKey(config, id), [message], x, n);
      Exchange(env, behind, t, c0, out0, x, n + 1)
      == (end.0, end.1, [PublicKey(id, config.name, config.publicKey)] + end.2)
  {
    FirstMessage(config, id);
    RekeyingStep(env, t, config, id, x);
    hide FileMessage, TrueCrc, Start, Handle, Receive, Exchange, SetKeys, WithKey, Initial, Fitting, FittingResponse;
    var m := PublicKey(id, config.name, config.publicKey);
    ExchangeOnce(env, behind, t, Initial(config, id).(queue := [m]), m, x, n + 1);
  }

  lemma RekeyingStep(env: Env, t: Tables, config: Config, id: Id, x: Chance)
    requires Known(env, t, config, id, x)
    ensures var m := PublicKey(id, config.name, config.publicKey);
      var r := KeyReceived(id, env.wrap(config.publicKey, x.newKey).value);
      var c := Initial(config, id).(queue := [m]);
      && Fitting(m) && FittingResponse(r)
      && Handle(env, t, Some(m), x) == Handled(SetKeys(t, id, config.publicKey, x.newKey), [r], Served)
      && Receive(env, c, r)
         == (WithKey(config, id), [FileMessage(env.cipher, x.newKey, id, config.fileName, config.file)])
  {
    hide FileMessage, TrueCrc;
    assert [PublicKey(id, config.name, config.publicKey)][1..] == [];
    assert ZERO == seq(16, _ => 0);
  }

  /** A registered client's session: three messages, all under its own id, for its public key, its file
      and the approval. No client is added, its row has the new keys, and the file with its zeros is on
      the server's disk, if it opens there. */
  lemma RegisteredSession(env: Env, behind: Request -> Filler, t: Tables, config: Config, id: Id, x: Chance, n: nat)
    requires Invertible(env.cipher) && Known(env, t, config, id, x)
    requires |config.file| <= 720 || 1008 < |config.file|
    ensures var (c0, out0) := Start(Initial(config, id));
            var end := Exchange(env, behind, t, c0, out0, x, n + 3);
            var name, padded := config.fileName, ZeroPadded(config.file);
            && end.2 == [PublicKey(id, config.name, config.publicKey),
                         SendFile(id, |padded|, name, Encrypt(env.cipher, x.newKey, padded)),
                         CrcStatus(Valid, id, id, name)]
            && end.1.phase == Ended
            && end.0.clients == t.clients[id := ClientRow(t.clients[id].name, Some(config.publicKey), Some(x.newKey))]
            && end.0.clients.Keys == t.clients.Keys
            && Delivered(env, t, end.0, id, name, config.file, padded, x.opens)
  {
    hide Encrypt, ZeroPadded, Exchange, Handle, FileMessage, StatusMessage, FitsLayouts, FullPath, FileAndZeros;
    assert ZERO == seq(16, _ => 0);
    DeliverableSizes(config.file);
    TransferMessages(env, config, id, x.newKey);
    Rekeying(env, behind, t, config, id, x, n + 2);
    DeliveredBy(env, behind, SetKeys(t, id, config.publicKey, x.newKey), config, id, x.newKey,
                env.wrap(config.publicKey, x.newKey).value, x, n);
    var key, padded := PublicKey(id, config.name, config.publicKey), ZeroPadded(config.file);
    var file := SendFile(id, |padded|, config.fileName, Encrypt(env.cipher, x.newKey, padded));
    var (c0, out0) := Start(Initial(config, id));
    var end := Exchange(env, behind, t, c0, out0, x, n + 3);
    var rest := Exchange(env, behind, SetKeys(t, id, config.publicKey, x.newKey), WithKey(config, id), [file], x, n + 2);
    assert end == (rest.0, rest.1, [key] + rest.2);
    hide Start, WithKey, Initial;
    assert end.2 == [key, file, CrcStatus(Valid, id, id, config.fileName)];
    assert end.1.phase == Ended;
    assert Delivered(env, t, end.0, id, config.fileName, config.file, padded, x.opens);
  }

  lemma FileIsRefused(env: Env, t: Tables, config: Config, id: Id, key: Key, x: Chance)
    requires !Deliverable(config.file)
    ensures var message := FileMessage(env.cipher, key, id, config.fileName, config.file);
            Handle(env, t, Some(message), x) == Handled(t, [RegistrationFailed], Refused)
  {
    hide Encrypt, Decrypt, ZeroPadded;
    PaddingIsLeast(|config.file|, |config.file|);
  }

  // ----- sessions that go wrong -----

  /** A file name that belongs to another client: the answer carries checksum 0, so the client
      approves exactly when its own checksum is 0 (an empty file, say); the server then refuses
      and writes nothing. */
  lemma ConflictingName(env: Env, t: Tables, c: ClientState, m: Request, x: Chance)
    requires m.SendFile? && m.headerId == c.id && c.id in t.clients && m.fileName == c.config.fileName
    requires InFramingDomain(|m.content|) && m.fileName in t.files && !Owns(t, c.id, m.fileName)
    requires c.phase == Running && FileHashed(c) && c.crcAttempts == 0
    ensures var h := Handle(env, t, Some(m), x);
            && h.responses == [FileCrc(c.id, m.contentSize, m.fileName, 0)] && h.tables.disk == t.disk
            && (Receive(env, c, h.responses[0]).1 == [StatusMessage(c, Valid)] <==> TrueCrc(c.config) == 0)
            && Handle(env, h.tables, Some(StatusMessage(c, Valid)), x) == Handled(h.tables, [RegistrationFailed], Refused)
    ensures c.config.file == [] ==> TrueCrc(c.config) == 0
  {
    hide Decrypt, Crc.DivideAll, FullPath;
    if c.config.file == [] {
      assert ZeroPadded([]) == [];
      Crc.CrcOfNothing();
    }
  }

  predicate FileHashed(c: ClientState) { c.calculatedCrc == TrueCrc(c.config) }

  /** A file of the sender that cannot be decrypted, sent again after an approval: the row stays
      verified while the content is gone, and an approval of the answered checksum 0 truncates
      the file on disk. */
  lemma UndecryptableTruncates(env: Env, t: Tables, m: Request, x: Chance)
    requires m.SendFile? && m.headerId in t.clients && InFramingDomain(|m.content|) && |m.content| % 16 != 0
    requires Owns(t, m.headerId, m.fileName) && x.opens
    ensures var h := Handle(env, t, Some(m), x);
            var p := FullPath(env.fs, m.headerId, m.fileName);
            var approved := Handle(env, h.tables, Some(CrcStatus(Valid, m.headerId, m.headerId, m.fileName)), x);
            && h.outcome == Served && h.tables.files == t.files
            && h.tables.dict[p].content == None
            && approved.outcome == Served
            && approved.tables.disk == t.disk[env.fs.file(p) := []]
  {
    hide FullPath;
  }
}
