/** The request handlers of server.py. */
module Server {
  import opened Octets
  import opened Blocks
  import opened Protocol
  import opened Payload
  import opened Framing
  import opened Paths
  import opened Store
  import opened Wrappers
  import Crc

  /** The code outside the repository: the block cipher, RSA under a public key, and the file
      system. Wrapping fails for bytes that are not a public key. */
  datatype Env = Env(cipher: Cipher, wrap: (Bytes, Key) -> Option<Bytes>, unwrap: (Bytes, Bytes) -> Key, fs: FileSystem)

  /** What a handler comes to: it returns True, it returns False, it raises, or it keeps receiving
      nothing from a closed connection. */
  datatype Outcome = Served | Refused | Crashed | Spinning

  datatype Handled = Handled(tables: Tables, responses: seq<Response>, outcome: Outcome)

  predicate IsAscii(name: Bytes) {
    forall b :: b in name ==> b < 128
  }

  function Refuse(t: Tables): Handled { Handled(t, [RegistrationFailed], Refused) }

  /** Registration up to the insertion; None when the name may be inserted. */
  function CheckRegistration(t: Tables, name: Bytes): Option<Handled> {
    if !IsAscii(name) || NameTaken(t, name) then Some(Refuse(t)) else None
  }

  function InsertRegistration(t: Tables, name: Bytes, id: Id): Handled {
    var (t', ok) := AddClient(t, id, name);
    if ok then Handled(t', [Registered(id)], Served) else Refuse(t')
  }

  function HandleRegistration(t: Tables, name: Bytes, id: Id): Handled {
    match CheckRegistration(t, name)
    case Some(h) => h
    case None => InsertRegistration(t, name, id)
  }

  function HandlePublicKey(env: Env, t: Tables, id: Id, publicKey: Bytes, aesKey: Key): Handled {
    if id !in t.clients || |publicKey| != PUBLIC_KEY_SIZE then Refuse(t)
    else
      var t' := SetKeys(t, id, publicKey, aesKey);
      match env.wrap(publicKey, aesKey)
      case None => Handled(t', [], Crashed)
      case Some(wrapped) => Handled(t', [KeyReceived(id, wrapped)], Served)
  }

  /** The file handler after a successful unpack. A file that could not be stored is still
      answered, with checksum 0. */
  function HandleSendFile(env: Env, t: Tables, id: Id, contentSize: nat, name: Bytes, body: Bytes): Handled {
    if id !in t.clients then Refuse(t)
    else
      var content := Decrypt(env.cipher, t.clients[id].aesKey, body, contentSize);
      var (t', crc) := StoreFile(env.fs, t, id, name, content);
      Handled(t', [FileCrc(id, contentSize, name, if crc.Some? then crc.value else 0)], Served)
  }

  function HandleCrcValid(env: Env, t: Tables, headerId: Id, id: Id, name: Bytes, opens: bool): Handled {
    if headerId !in t.clients then Refuse(t)
    else
      var (t', ok) := Verify(env.fs, t, id, name, opens);
      if ok then Handled(t', [Received], Served) else Refuse(t')
  }

  /** A missing file is answered with an empty 2103 message, not with a refusal; a missing
      content raises. */
  function HandleResend(env: Env, t: Tables, headerId: Id, id: Id, name: Bytes): Handled {
    var p := FullPath(env.fs, id, name);
    if headerId !in t.clients then Refuse(t)
    else if !Owns(t, id, name) || p !in t.dict then Handled(t, [FileCrc(ZERO, 0, [], 0)], Refused)
    else
      match t.dict[p].content
      case None => Handled(t, [], Crashed)
      case Some(content) => Handled(t, [FileCrc(headerId, |content|, name, Crc.Crc32(content))], Served)
  }

  /** The abort handler raises on its missing selector in every case. */
  function HandleAbort(t: Tables): Handled { Handled(t, [], Crashed) }

  /** What is random or outside the server in one turn: a fresh id, a fresh key, and whether the
      file that an approval writes opens. */
  datatype Chance = Chance(newId: Id, newKey: Key, opens: bool)

  /** The handlers on whole requests; None is a request that does not unpack or has no handler. A
      file body of a size that its unpack rejects is refused. */
  function Handle(env: Env, t: Tables, m: Option<Request>, x: Chance): Handled {
    match m
    case None => Handled(t, [], Refused)
    case Some(Registration(_, name)) => HandleRegistration(t, name, x.newId)
    case Some(PublicKey(id, _, key)) => HandlePublicKey(env, t, id, key, x.newKey)
    case Some(SendFile(id, contentSize, name, body)) =>
      if InFramingDomain(|body|) then HandleSendFile(env, t, id, contentSize, name, body) else Refuse(t)
    case Some(CrcStatus(Valid, headerId, id, name)) => HandleCrcValid(env, t, headerId, id, name, x.opens)
    case Some(CrcStatus(Resend, headerId, id, name)) => HandleResend(env, t, headerId, id, name)
    case Some(CrcStatus(Abort, _, _, _)) => HandleAbort(t)
  }

  /** A code whose handler answers a request that it can not unpack. */
  predicate AnswersUnreadable(code: nat) { code == 1104 || code == 1105 }

  /** The handlers on the packet that `read` received and the stream behind it. */
  function Dispatch(env: Env, t: Tables, data: Bytes, chunks: seq<Bytes>, x: Chance): (Handled, seq<Bytes>) {
    match UnpackHeader(data)
    case None => (Handled(t, [], Refused), chunks)
    case Some(header) =>
      if header.code == 1102 then DispatchFile(env, t, data, chunks)
      else
        match UnpackRequest(data)
        case Some(r) => (Handle(env, t, Some(r), x), chunks)
        case None => (if AnswersUnreadable(header.code) then Refuse(t) else Handled(t, [], Refused), chunks)
  }

  function DispatchFile(env: Env, t: Tables, data: Bytes, chunks: seq<Bytes>): (Handled, seq<Bytes>) {
    match UnpackFile(data, chunks)
    case (Rejected, rest) => (Refuse(t), rest)
    case (Spins, rest) => (Handled(t, [], Spinning), rest)
    case (Unpacked(r), rest) => (HandleSendFile(env, t, r.headerId, r.contentSize, r.fileName, r.content), rest)
  }

  /** What `read` sends for one request: a refusal adds one more 2101. */
  function Answers(h: Handled): seq<Response> {
    if h.outcome == Refused then h.responses + [RegistrationFailed] else h.responses
  }

  // ----- one turn, told by what is written and what is left -----

  predicate TakenOrForeign(t: Tables, name: Bytes) {
    (exists b :: b in name && b >= 128) || exists id :: id in t.clients && t.clients[id].name == name
  }

  /** The sender has the file: its row is the sender's, and its path has an entry. */
  predicate Holds(env: Env, t: Tables, id: Id, name: Bytes) {
    name in t.files && t.files[name].owner == id && FullPath(env.fs, id, name) in t.dict
  }

  /** The checksum announced for a body: of what it decrypts to, or 0 for what can not be stored. */
  function Announced(env: Env, t: Tables, id: Id, size: nat, name: Bytes, body: Bytes): bv32
    requires id in t.clients
  {
    match Decrypt(env.cipher, t.clients[id].aesKey, body, size)
    case None => 0
    case Some(content) => if name in t.files && t.files[name].owner != id then 0 else Crc.Crc32(content)
  }

  /** What goes out in answer to a request. */
  predicate Replies(env: Env, t: Tables, m: Request, x: Chance, out: seq<Response>) {
    match m
    case Registration(_, name) =>
      if TakenOrForeign(t, name) || x.newId in t.clients then out == [RegistrationFailed, RegistrationFailed]
      else out == [Registered(x.newId)]
    case PublicKey(id, _, key) =>
      if id !in t.clients || |key| != 160 then out == [RegistrationFailed, RegistrationFailed]
      else out == (match env.wrap(key, x.newKey) case None => [] case Some(wrapped) => [KeyReceived(id, wrapped)])
    case SendFile(id, size, name, body) =>
      if id !in t.clients then out == [RegistrationFailed, RegistrationFailed]
      else out == [FileCrc(id, size, name, Announced(env, t, id, size, name, body))]
    case CrcStatus(Valid, sender, id, name) =>
      if sender in t.clients && Holds(env, t, id, name) then out == [Received]
      else out == [RegistrationFailed, RegistrationFailed]
    case CrcStatus(Resend, sender, id, name) =>
      if sender !in t.clients then out == [RegistrationFailed, RegistrationFailed]
      else if !Holds(env, t, id, name) then out == [FileCrc(seq(16, _ => 0), 0, [], 0), RegistrationFailed]
      else out == (match t.dict[FullPath(env.fs, id, name)].content
                   case None => []
                   case Some(content) => [FileCrc(sender, |content|, name, Crc.Crc32(content))])
    case CrcStatus(Abort, _, _, _) => out == []
  }

  /** What a request leaves in the tables and on disk. */
  predicate Leaves(env: Env, t: Tables, m: Request, x: Chance, t': Tables) {
    match m
    case Registration(_, name) =>
      if TakenOrForeign(t, name) || x.newId in t.clients then t' == t
      else t' == Tables(t.clients[x.newId := ClientRow(name, None, None)], t.files, t.dict, t.disk)
    case PublicKey(id, _, key) =>
      if id !in t.clients || |key| != 160 then t' == t
      else
        var row := ClientRow(t.clients[id].name, Some(key), Some(x.newKey));
        t' == Tables(t.clients[id := row], t.files, t.dict, t.disk)
    case SendFile(id, size, name, body) =>
      if id !in t.clients then t' == t
      else
        var p, content := FullPath(env.fs, id, name), Decrypt(env.cipher, t.clients[id].aesKey, body, size);
        && t'.clients == t.clients && t'.disk == t.disk
        && t'.dict == t.dict[p := Entry(content, if content.Some? then Crc.Crc32(content.value) else 0xFFFFFF, false)]
        && t'.files == if content.Some? && (name in t.files ==> t.files[name].owner == id)
                       then t.files[name := FileRow(id, false)] else t.files
    case CrcStatus(verdict, sender, id, name) =>
      if verdict != Valid || sender !in t.clients || !Holds(env, t, id, name) then t' == t
      else
        var p := FullPath(env.fs, id, name);
        && t'.clients == t.clients && t'.files == t.files[name := FileRow(id, true)]
        && t'.dict == t.dict[p := t.dict[p].(verified := true)]
        && t'.disk == if x.opens
                      then t.disk[env.fs.file(p) := match t.dict[p].content case None => [] case Some(content) => content]
                      else t.disk
  }

  /** One turn of the read loop on a packet and the stream behind it. */
  predicate Turn(env: Env, t: Tables, data: Bytes, chunks: seq<Bytes>, x: Chance, t': Tables, out: seq<Response>) {
    if |data| < 23 then t' == t && out == [RegistrationFailed]
    else if FromLe(data[17..19]) == 1102 then
      match UnpackFile(data, chunks).0
      case Rejected => t' == t && out == [RegistrationFailed, RegistrationFailed]
      case Spins => t' == t && out == []
      case Unpacked(r) => Replies(env, t, r, x, out) && Leaves(env, t, r, x, t')
    else
      match UnpackRequest(data)
      case Some(r) => Replies(env, t, r, x, out) && Leaves(env, t, r, x, t')
      case None =>
        && t' == t
        && out == if FromLe(data[17..19]) == 1104 || FromLe(data[17..19]) == 1105
                  then [RegistrationFailed, RegistrationFailed] else [RegistrationFailed]
  }

  /** How a turn ends, by what it has written: nothing after an exception or in a loop without end, a
      2101 last of all when the session is over. */
  predicate Ends(data: Bytes, chunks: seq<Bytes>, out: seq<Response>, outcome: Outcome) {
    outcome ==
      if out == [] then
        if |data| >= 23 && FromLe(data[17..19]) == 1102 && UnpackFile(data, chunks).0 == Spins then Spinning else Crashed
      else if out[|out| - 1] == RegistrationFailed then Refused
      else Served
  }

  lemma FileTold(env: Env, t: Tables, r: Request, x: Chance)
    requires r.SendFile?
    ensures var h := HandleSendFile(env, t, r.headerId, r.contentSize, r.fileName, r.content);
      && Replies(env, t, r, x, Answers(h)) && Leaves(env, t, r, x, h.tables)
      && EndsLike(Answers(h), h.outcome) && Answers(h) != []
  {
    hide Decrypt, FullPath;
  }

  /** An exception after no answer, a refusal after a last 2101, else a request served. */
  predicate EndsLike(out: seq<Response>, outcome: Outcome) {
    outcome == if out == [] then Crashed else if out[|out| - 1] == RegistrationFailed then Refused else Served
  }

  lemma OthersTold(env: Env, t: Tables, r: Request, x: Chance)
    requires !r.SendFile?
    ensures var h := Handle(env, t, Some(r), x);
      && Replies(env, t, r, x, Answers(h)) && Leaves(env, t, r, x, h.tables)
      && EndsLike(Answers(h), h.outcome)
  {
    hide Decrypt, FullPath;
    assert ZERO == seq(16, _ => 0);
  }

  /** A request that is none ends the session with one 2101. */
  lemma NoRequestTold(env: Env, t: Tables, x: Chance)
    ensures var h := Handle(env, t, None, x);
      Answers(h) == [RegistrationFailed] && h.tables == t && h.outcome == Refused
  {}

  lemma TurnTold(env: Env, t: Tables, data: Bytes, chunks: seq<Bytes>, x: Chance)
    ensures var h := Dispatch(env, t, data, chunks, x).0;
      Turn(env, t, data, chunks, x, h.tables, Answers(h)) && Ends(data, chunks, Answers(h), h.outcome)
  {
    hide UnpackHeader, UnpackRequest, UnpackFile, Handle, HandleSendFile, Replies, Leaves;
    UnreadableExactly(data);
    if |data| >= 23 {
      if FromLe(data[17..19]) == 1102 {
        match UnpackFile(data, chunks).0 {
          case Unpacked(r) => FileTold(env, t, r, x);
          case _ =>
        }
      } else if UnpackRequest(data).Some? {
        NoFileUnpacked(data);
        OthersTold(env, t, UnpackRequest(data).value, x);
      }
    }
  }

  // ----- the object -----

  class Server {
    const env: Env
    const database: Database

    /** Responses written to the current connection. */
    var written: seq<Response>

    constructor (env: Env, clients: map<Id, ClientRow>, files: map<Bytes, FileRow>)
      ensures this.env == env && written == [] && State() == Tables(clients, files, map[], map[])
      ensures Valid() && fresh(database) && fresh(database.fileHandler)
    {
      this.env, this.written := env, [];
      this.database := new Database(env.fs, clients, files);
    }

    /** The file handler works on the file system of the environment. */
    ghost predicate Valid() { database.fileHandler.fs == env.fs }

    function State(): Tables
      reads database, database.fileHandler
    {
      database.Snapshot()
    }

    twostate predicate Did(h: Handled, outcome: Outcome)
      reads this, database, database.fileHandler
    {
      State() == h.tables && written == old(written) + h.responses && outcome == h.outcome
    }

    method Write(r: Response)
      modifies this
      ensures written == old(written) + [r]
    {
      written := written + [r];
    }

    method HandleRegistrationRequest(name: Bytes, newId: Id) returns (outcome: Outcome)
      modifies this, database, database.fileHandler
      ensures Did(HandleRegistration(old(State()), name, newId), outcome)
    {
      var taken := false;
      if IsAscii(name) {
        taken := database.ClientUsernameExists(name);
      }
      if !IsAscii(name) || taken {
        Write(RegistrationFailed);
        return Refused;
      }
      var ok := database.InsertClient(newId, name);
      if !ok {
        Write(RegistrationFailed);
        return Refused;
      }
      Write(Registered(newId));
      outcome := Served;
    }

    method HandlePublicKeyRequest(id: Id, publicKey: Bytes, newKey: Key) returns (outcome: Outcome)
      modifies this, database, database.fileHandler
      ensures Did(HandlePublicKey(env, old(State()), id, publicKey, newKey), outcome)
    {
      if id !in database.clients || |publicKey| != PUBLIC_KEY_SIZE {
        Write(RegistrationFailed);
        return Refused;
      }
      database.StoreKeys(id, publicKey, newKey);
      match env.wrap(publicKey, newKey)
      case None =>
        outcome := Crashed;
      case Some(wrapped) =>
        Write(KeyReceived(id, wrapped));
        outcome := Served;
    }

    method HandleSendFileRequest(conn: Connection, data: Bytes) returns (outcome: Outcome)
      requires Valid()
      modifies this, database, database.fileHandler, conn
      ensures Did(DispatchFile(env, old(State()), data, old(conn.incoming)).0, outcome)
      ensures outcome != Spinning ==> conn.incoming == DispatchFile(env, old(State()), data, old(conn.incoming)).1
    {
      hide UnpackFile, Decrypt, StoreFile;
      var result := UnpackSendFile(conn, data);
      match result {
        case Spins =>
          outcome := Spinning;
        case Rejected =>
          Write(RegistrationFailed);
          outcome := Refused;
        case Unpacked(r) =>
          outcome := StoreSentFile(r.headerId, r.contentSize, r.fileName, r.content);
      }
    }

    /** The rest of the file handler, after its unpack. */
    method StoreSentFile(id: Id, contentSize: nat, name: Bytes, body: Bytes) returns (outcome: Outcome)
      requires Valid()
      modifies this, database, database.fileHandler
      ensures Did(HandleSendFile(env, old(State()), id, contentSize, name, body), outcome)
      ensures outcome != Spinning
    {
      if id !in database.clients {
        Write(RegistrationFailed);
        return Refused;
      }
      var content := Decrypt(env.cipher, database.clients[id].aesKey, body, contentSize);
      var checksum := 0;
      var crc := database.StoreFileInDb(id, name, content);
      if crc.Some? {
        checksum := crc.value;
      }
      Write(FileCrc(id, contentSize, name, checksum));
      outcome := Served;
    }

    method HandleCrcValidRequest(headerId: Id, id: Id, name: Bytes, opens: bool) returns (outcome: Outcome)
      requires Valid()
      modifies this, database, database.fileHandler
      ensures Did(HandleCrcValid(env, old(State()), headerId, id, name, opens), outcome)
    {
      if headerId !in database.clients {
        Write(RegistrationFailed);
        return Refused;
      }
      var ok := database.UpdateVerification(id, name, opens);
      if !ok {
        Write(RegistrationFailed);
        return Refused;
      }
      Write(Received);
      outcome := Served;
    }

    method HandleInvalidCrcResendRequest(headerId: Id, id: Id, name: Bytes) returns (outcome: Outcome)
      requires Valid()
      modifies this, database, database.fileHandler
      ensures Did(HandleResend(env, old(State()), headerId, id, name), outcome)
    {
      if headerId !in database.clients {
        Write(RegistrationFailed);
        return Refused;
      }
      var file := database.GetFile(id, name);
      if file.None? {
        Write(FileCrc(ZERO, 0, [], 0));
        return Refused;
      }
      match file.value.content
      case None =>
        outcome := Crashed;
      case Some(content) =>
        var crc := Checksum(content);
        Write(FileCrc(headerId, |content|, name, crc));
        outcome := Served;
    }

    /** The handlers whose request is in the packet already received. */
    method HandleUnpacked(m: Request, x: Chance) returns (outcome: Outcome)
      requires Valid() && !m.SendFile?
      modifies this, database, database.fileHandler
      ensures Did(Handle(env, old(State()), Some(m), x), outcome)
    {
      match m {
        case Registration(_, name) => outcome := HandleRegistrationRequest(name, x.newId);
        case PublicKey(id, _, key) => outcome := HandlePublicKeyRequest(id, key, x.newKey);
        case CrcStatus(Valid, headerId, id, name) => outcome := HandleCrcValidRequest(headerId, id, name, x.opens);
        case CrcStatus(Resend, headerId, id, name) => outcome := HandleInvalidCrcResendRequest(headerId, id, name);
        case CrcStatus(Abort, _, _, _) => outcome := Crashed;
      }
    }

    /** One turn of the read loop on a packet: header, dispatch, and one more 2101 after a refusal. */
    method HandleRequest(conn: Connection, data: Bytes, x: Chance) returns (outcome: Outcome)
      requires Valid()
      modifies this, database, database.fileHandler, conn
      ensures var h := Dispatch(env, old(State()), data, old(conn.incoming), x);
        && State() == h.0.tables && outcome == h.0.outcome
        && written == old(written) + Answers(h.0)
        && (outcome != Spinning ==> conn.incoming == h.1)
      ensures old(written) <= written
      ensures Turn(env, old(State()), data, old(conn.incoming), x, State(), written[|old(written)|..])
      ensures Ends(data, old(conn.incoming), written[|old(written)|..], outcome)
    {
      hide UnpackHeader, UnpackRequest, DispatchFile, Handle, Turn, Ends;
      TurnTold(env, old(State()), data, old(conn.incoming), x);
      var header := UnpackHeader(data);
      if header.None? {
        outcome := Refused;
      } else if header.value.code == 1102 {
        outcome := HandleSendFileRequest(conn, data);
      } else {
        var request := UnpackRequest(data);
        if request.Some? {
          NoFileUnpacked(data);
          outcome := HandleUnpacked(request.value, x);
        } else {
          if AnswersUnreadable(header.value.code) {
            Write(RegistrationFailed);
          }
          outcome := Refused;
        }
      }
      ghost var h := Dispatch(env, old(State()), data, old(conn.incoming), x).0;
      assert written == old(written) + h.responses && outcome == h.outcome;
      if outcome == Refused {
        Write(RegistrationFailed);
        assert written == old(written) + (h.responses + [RegistrationFailed]);
      }
      assert written == old(written) + Answers(h);
    }
  }

  lemma NoFileUnpacked(data: Bytes)
    ensures UnpackRequest(data).Some? ==> !UnpackRequest(data).value.SendFile?
  {
    hide Slice, FromLe, BeforeNul;
  }

  // ----- packets and requests -----

  /** The server treats the packets of a request as the request, whatever fills the last packet up
      and whatever follows it, and goes on at the next message unless it refused a file's body. */
  lemma PacketsAreRequests(env: Env, t: Tables, r: Request, memory: Bytes, later: seq<Bytes>, x: Chance)
    requires Fitting(r) && PackRequest(r) <= memory && PacketCount(|PackRequest(r)|) * PACKET_SIZE <= |memory|
    ensures var packets := Packets(memory, |PackRequest(r)|);
      && packets != []
      && Dispatch(env, t, packets[0], packets[1..] + later, x)
         == (Handle(env, t, Some(r), x),
             if r.SendFile? && !InFramingDomain(|r.content|) then packets[1..] + later else later)
  {
    hide PackRequest, UnpackHeader, UnpackRequest, UnpackFile, Handle, HandleSendFile, Packets;
    if r.SendFile? {
      FileMessageDelivered(r, memory, later);
      FilePacketHeader(r, memory);
      FileHandled(env, t, r, x);
    } else {
      OnePacket(r, memory);
      var filler := memory[|PackRequest(r)|..1024];
      assert memory[..1024] == PackRequest(r) + filler;
      RequestRoundTrip(r, filler);
      PackedRequest(r, filler);
      OtherCode(r);
      assert Packets(memory, |PackRequest(r)|)[1..] + later == later;
    }
  }

  lemma FileHandled(env: Env, t: Tables, r: Request, x: Chance)
    requires r.SendFile?
    ensures Handle(env, t, Some(r), x)
      == if InFramingDomain(|r.content|) then HandleSendFile(env, t, r.headerId, r.contentSize, r.fileName, r.content)
         else Refuse(t)
  {}

  lemma OtherCode(r: Request)
    ensures r.SendFile? <==> RequestCode(r) == 1102
  {}

  lemma FilePacketHeader(r: Request, memory: Bytes)
    requires r.SendFile? && Fitting(r) && PackRequest(r) <= memory
      && PacketCount(|PackRequest(r)|) * PACKET_SIZE <= |memory|
    ensures var packets := Packets(memory, |PackRequest(r)|);
      packets != [] && UnpackHeader(packets[0]).Some? && UnpackHeader(packets[0]).value.code == 1102
  {
    hide PackRequest, UnpackHeader;
    BodyFollowsFields(r);
    PacketsTail(memory, |PackRequest(r)|);
    FileMessageFields(r, memory, 1024);
  }

  lemma OnePacket(r: Request, memory: Bytes)
    requires Fitting(r) && !r.SendFile? && PackRequest(r) <= memory
      && PacketCount(|PackRequest(r)|) * PACKET_SIZE <= |memory|
    ensures 0 < |PackRequest(r)| <= 1024 <= |memory| && Packets(memory, |PackRequest(r)|) == [memory[..1024]]
  {
    hide PackRequest;
    SmallRequests(r);
    PacketsTail(memory, |PackRequest(r)|);
    assert Packets(memory[1024..], 0) == [];
  }

  lemma SmallRequests(r: Request)
    requires Fitting(r) && !r.SendFile?
    ensures 0 < |PackRequest(r)| < 1024
  {}

  /** The packets of a file message, cut off after the first or later: the server never returns. */
  lemma CutPacketsSpin(env: Env, t: Tables, r: Request, memory: Bytes, q: nat, x: Chance)
    requires r.SendFile? && Fitting(r) && InFramingDomain(|r.content|)
    requires PackRequest(r) <= memory && PacketCount(|PackRequest(r)|) * PACKET_SIZE <= |memory|
    requires 1 <= q < PacketCount(|PackRequest(r)|)
    ensures var packets := Packets(memory, |PackRequest(r)|);
      Dispatch(env, t, packets[0], packets[1..q], x).0 == Handled(t, [], Spinning)
  {
    hide PackRequest, UnpackHeader, UnpackFile, Packets;
    FilePacketHeader(r, memory);
    FileMessageCut(r, memory, q);
  }

  // ----- when a handler raises -----

  /** Exactly these requests kill the thread that serves them: every abort, a key that can not
      wrap, and a repeated request for an own file whose content is missing. */
  lemma CrashesExactly(env: Env, t: Tables, m: Option<Request>, x: Chance)
    ensures Handle(env, t, m, x).outcome == Crashed <==>
      && m.Some?
      && match m.value
         case Registration(_, _) => false
         case PublicKey(id, _, key) => id in t.clients && |key| == PUBLIC_KEY_SIZE && env.wrap(key, x.newKey).None?
         case SendFile(_, _, _, _) => false
         case CrcStatus(verdict, headerId, id, name) =>
           verdict == Abort
           || (verdict == Resend && headerId in t.clients && Owns(t, id, name) && FullPath(env.fs, id, name) in t.dict
               && t.dict[FullPath(env.fs, id, name)].content.None?)
    ensures Handle(env, t, m, x).outcome != Spinning
  {
    hide Decrypt, FullPath;
  }

  // ----- what every handler keeps -----

  /** What the invariant asks of a request. */
  predicate Harmless(env: Env, t: Tables, m: Option<Request>, opens: bool) {
    match m
    case Some(SendFile(id, _, name, body)) =>
      InFramingDomain(|body|) && id in t.clients ==>
        Replaceable(env.fs, t, id, name, t.clients[id].aesKey.Some? && |body| % 16 == 0)
    case Some(CrcStatus(Valid, headerId, id, name)) => headerId in t.clients ==> Approvable(env.fs, t, id, name, opens)
    case _ => true
  }

  /** A request keeps the store invariant exactly when it is a file that may replace the entry at
      its path, an approval whose row and file agree with the others, or anything else. */
  lemma HandleInvariant(env: Env, t: Tables, m: Option<Request>, x: Chance)
    requires StoreOk(env.fs, t)
    ensures StoreOk(env.fs, Handle(env, t, m, x).tables) <==> Harmless(env, t, m, x.opens)
  {
    hide Decrypt, Replaceable, Approvable, StoreOk, StoreFile, Verify;
    match m
    case None =>
    case Some(Registration(_, name)) => RowsFollow(env.fs, t, Handle(env, t, m, x).tables);
    case Some(PublicKey(id, _, key)) => RowsFollow(env.fs, t, Handle(env, t, m, x).tables);
    case Some(SendFile(id, contentSize, name, body)) =>
      if InFramingDomain(|body|) && id in t.clients {
        var content := Decrypt(env.cipher, t.clients[id].aesKey, body, contentSize);
        DecryptFails(env.cipher, t.clients[id].aesKey, body, contentSize);
        StoreFileInvariant(env.fs, t, id, name, content);
      }
    case Some(CrcStatus(Valid, headerId, id, name)) => VerifyInvariant(env.fs, t, id, name, x.opens);
    case Some(CrcStatus(Resend, headerId, id, name)) =>
    case Some(CrcStatus(Abort, _, _, _)) =>
  }

  lemma DecryptFails(c: Cipher, key: Option<Key>, body: Bytes, contentSize: nat)
    ensures Decrypt(c, key, body, contentSize).None? <==> key.None? || |body| % 16 != 0
  {}

  lemma RowsFollow(fs: FileSystem, t: Tables, t': Tables)
    requires StoreOk(fs, t) && t'.files == t.files && t'.dict == t.dict && t'.disk == t.disk
    ensures StoreOk(fs, t')
  {
    forall n | n in t'.files ensures RowOk(fs, t', n) {
      assert RowOk(fs, t, n);
    }
  }

  /** With plain names all round, the one harmful request is a body that can not be decrypted, for a
      file its sender already has. */
  lemma PlainHarmless(env: Env, t: Tables, m: Option<Request>)
    requires PlainRows(t) && PlainApart(env.fs)
    requires m.Some? && (m.value.SendFile? || m.value.CrcStatus?) ==> Plain(m.value.fileName)
    ensures Harmless(env, t, m, true) <==>
      !(m.Some? && m.value.SendFile? && InFramingDomain(|m.value.content|) && m.value.headerId in t.clients
        && (t.clients[m.value.headerId].aesKey.None? || |m.value.content| % 16 != 0)
        && Owns(t, m.value.headerId, m.value.fileName))
  {
    hide Replaceable, Approvable, Plain, PlainApart, PlainRows;
    match m {
      case Some(SendFile(id, _, name, body)) =>
        if id in t.clients {
          PlainStoreKeeps(env.fs, t, id, name, t.clients[id].aesKey.Some? && |body| % 16 == 0);
        }
      case Some(CrcStatus(Valid, headerId, id, name)) =>
        PlainApprovalKeeps(env.fs, t, id, name);
      case _ =>
    }
  }

  /** The disk moves only on an approval, and then only in the file that the approved path leads to. */
  lemma DiskMovesOnApproval(env: Env, t: Tables, m: Option<Request>, x: Chance, file: Bytes)
    ensures var t' := Handle(env, t, m, x).tables;
            (file in t'.disk) != (file in t.disk)
            || (file in t.disk && file in t'.disk && t'.disk[file] != t.disk[file]) ==>
              && m.Some? && m.value.CrcStatus? && m.value.verdict == Valid && x.opens
              && var p := FullPath(env.fs, m.value.clientId, m.value.fileName);
              && file == env.fs.file(p) && Owns(t, m.value.clientId, m.value.fileName) && p in t.dict
              && file in t'.disk && t'.disk[file] == Saved(t.dict[p].content)
  {
    hide FullPath;
  }
}
