/** Any number of clients, the listener thread, one session thread per connection, the lock,
    and channels that deliver in order or close: every interleaving of their steps. */
module System {
  import opened Octets
  import opened Blocks
  import opened Protocol
  import opened Payload
  import opened Paths
  import opened Store
  import opened Server
  import opened Client
  import opened Wrappers
  import Crc

  /** Where a session's thread is: not spawned, in the read loop, between the check and the
      insertion of a registration, done with the lock released, or, with the lock held, dead of an
      exception or receiving nothing for ever in the middle of a file. */
  datatype ServerPc = Waiting | Reading | Checked(name: Bytes) | Finished | Dead | Stuck

  /** The listener: in `accept`, waiting for the lock with a connection, or about to spawn. */
  datatype Listener = Listening | HasConnection(s: nat) | HasLock(s: nat)

  datatype Session = Session(
    pc: ServerPc,
    started: bool,
    client: ClientState,
    toServer: seq<Option<Request>>,
    toClient: seq<Response>)

  /** A file written by `saveFile` in a session. */
  datatype Write = Write(session: nat, file: Bytes, content: Bytes)

  datatype Sys = Sys(
    tables: Tables,
    lock: bool,
    listener: Listener,
    sessions: map<nat, Session>,
    writes: seq<Write>)

  datatype Step =
    | Connect(s: nat)
    | Accept(s: nat)
    | Acquire
    | Spawn
    | Serve(s: nat, newKey: Key, opens: bool)
    | Insert(s: nat, newId: Id)
    | HangUp(s: nat)
    | Cut(s: nat)
    | Deliver(s: nat)
    | ReadFails(s: nat)
    | Corrupt(s: nat, body: Bytes)
    | Stray(s: nat, m: Option<Request>)

  function Sending(out: seq<Request>): (r: seq<Option<Request>>)
    ensures |r| == |out|
  {
    seq(|out|, i requires 0 <= i < |out| => Some(out[i]))
  }

  function Put(a: Sys, s: nat, x: Session): Sys { a.(sessions := a.sessions[s := x]) }

  /** The thread's next place, and what becomes of the lock. */
  function AfterHandler(a: Sys, s: nat, x: Session, h: Handled): Sys {
    var x' := x.(toClient := x.toClient + Answers(h));
    match h.outcome
    case Served => Put(a, s, x'.(pc := Reading)).(tables := h.tables)
    case Refused => Put(a, s, x'.(pc := Finished)).(tables := h.tables, lock := false)
    case Crashed => Put(a, s, x'.(pc := Dead)).(tables := h.tables)
    case Spinning => Put(a, s, x'.(pc := Stuck)).(tables := h.tables)
  }

  /** The file an approval writes. */
  function Written(env: Env, s: nat, t: Tables, m: Option<Request>, opens: bool): seq<Write> {
    match m
    case Some(CrcStatus(Valid, headerId, id, name)) =>
      var p := FullPath(env.fs, id, name);
      if headerId in t.clients && Verify(env.fs, t, id, name, opens).1 && opens
      then [Write(s, env.fs.file(p), Saved(t.dict[p].content))] else []
    case _ => []
  }

  /** In a client's own directory a file can always be opened. */
  predicate Opens(m: Option<Request>, opens: bool) {
    m.Some? && m.value.CrcStatus? && Plain(m.value.fileName) ==> opens
  }

  function ServeOne(env: Env, a: Sys, s: nat, x: Session, newKey: Key, opens: bool): Sys
    requires x.toServer != []
  {
    var m, x' := x.toServer[0], x.(toServer := x.toServer[1..]);
    match m
    case Some(Registration(_, name)) => (
      match CheckRegistration(a.tables, name)
      case None => Put(a, s, x'.(pc := Checked(name)))
      case Some(h) => AfterHandler(a, s, x', h))
    case _ =>
      AfterHandler(a, s, x', Handle(env, a.tables, m, Chance(ZERO, newKey, opens)))
        .(writes := a.writes + Written(env, s, a.tables, m, opens))
  }

  /** A file message of more than one packet. */
  predicate LongFile(m: Option<Request>) {
    m.Some? && m.value.SendFile? && 1024 < |m.value.content|
  }

  /** The steps that are enabled, and where they lead. */
  function Next(env: Env, a: Sys, step: Step): Option<Sys> {
    match step
    case Connect(s) =>
      if s !in a.sessions || a.sessions[s].started then None
      else
        var x := a.sessions[s];
        var (c, out) := Start(x.client);
        Some(Put(a, s, x.(started := true, client := c, toServer := Sending(out))))
    case Accept(s) =>
      if s !in a.sessions || !a.sessions[s].started || !a.sessions[s].pc.Waiting? || a.listener != Listening then None
      else Some(a.(listener := HasConnection(s)))
    case Acquire =>
      if !a.listener.HasConnection? || a.lock then None
      else Some(a.(lock := true, listener := HasLock(a.listener.s)))
    case Spawn =>
      if !a.listener.HasLock? || a.listener.s !in a.sessions then None
      else Some(Put(a, a.listener.s, a.sessions[a.listener.s].(pc := Reading)).(listener := Listening))
    case Serve(s, newKey, opens) =>
      if s !in a.sessions || !a.sessions[s].pc.Reading? || a.sessions[s].toServer == []
         || !Opens(a.sessions[s].toServer[0], opens) then None
      else Some(ServeOne(env, a, s, a.sessions[s], newKey, opens))
    case Insert(s, newId) =>
      if s !in a.sessions || !a.sessions[s].pc.Checked? || newId == ZERO then None
      else Some(AfterHandler(a, s, a.sessions[s], InsertRegistration(a.tables, a.sessions[s].pc.name, newId)))
    case HangUp(s) =>
      if s !in a.sessions || !a.sessions[s].pc.Reading? || a.sessions[s].toServer != [] then None
      else Some(Put(a, s, a.sessions[s].(pc := Finished)).(lock := false))
    case Cut(s) =>
      if s !in a.sessions || !a.sessions[s].pc.Reading? || a.sessions[s].toServer == []
         || !LongFile(a.sessions[s].toServer[0]) then None
      else
        var x := a.sessions[s];
        Some(Put(a, s, x.(pc := Stuck, toServer := [], client := x.client.(phase := Ended))))
    case Deliver(s) =>
      if s !in a.sessions || a.sessions[s].toClient == [] then None
      else
        var x := a.sessions[s];
        var (c, out) := Receive(env, x.client, x.toClient[0]);
        Some(Put(a, s, x.(client := c, toServer := x.toServer + Sending(out), toClient := x.toClient[1..])))
    case ReadFails(s) =>
      if s !in a.sessions || !a.sessions[s].started then None
      else Some(Put(a, s, a.sessions[s].(client := a.sessions[s].client.(phase := Ended))))
    case Corrupt(s, body) =>
      if s !in a.sessions || a.sessions[s].toServer == [] || a.sessions[s].toServer[0].None?
         || !a.sessions[s].toServer[0].value.SendFile? then None
      else
        var x := a.sessions[s];
        Some(Put(a, s, x.(toServer := [Some(x.toServer[0].value.(content := body))] + x.toServer[1..])))
    case Stray(s, m) =>
      if s !in a.sessions || a.sessions[s].client.phase != Undefined then None
      else Some(Put(a, s, a.sessions[s].(toServer := a.sessions[s].toServer + [m])))
  }

  function Run(env: Env, a: Sys, steps: seq<Step>): Option<Sys>
    decreases |steps|
  {
    if steps == [] then Some(a)
    else
      match Next(env, a, steps[0])
      case None => None
      case Some(a') => Run(env, a', steps[1..])
  }

  /** No session has begun; the tables may hold anything from earlier times. */
  predicate Init(a: Sys) {
    && !a.lock && a.listener == Listening && a.writes == []
    && forall s :: s in a.sessions ==>
         a.sessions[s] == Session(Waiting, false, Initial(a.sessions[s].client.config, a.sessions[s].client.id), [], [])
  }

  // ----- mutual exclusion -----

  predicate InLoop(x: Session) { x.pc.Reading? || x.pc.Checked? }

  /** In the loop or never to leave it, or on the way in. */
  predicate HoldsLock(a: Sys, s: nat) {
    s in a.sessions
    && (InLoop(a.sessions[s]) || a.sessions[s].pc.Dead? || a.sessions[s].pc.Stuck? || a.listener == HasLock(s))
  }

  predicate ListenerOk(a: Sys) {
    !a.listener.Listening? ==>
      a.listener.s in a.sessions && a.sessions[a.listener.s].pc.Waiting? && a.sessions[a.listener.s].started
  }

  /** The lock is taken exactly when somebody holds it, and nobody shares it. */
  ghost predicate Mutex(a: Sys) {
    && (forall s, t :: HoldsLock(a, s) && HoldsLock(a, t) ==> s == t)
    && (a.lock <==> exists s :: HoldsLock(a, s))
    && ListenerOk(a)
  }

  /** The lock stays where it is. */
  ghost predicate LockStays(a: Sys, b: Sys) {
    a.lock == b.lock && forall s :: HoldsLock(b, s) <==> HoldsLock(a, s)
  }

  /** Its holder lets go of it, and nobody has it. */
  ghost predicate LockReleased(a: Sys, b: Sys, s: nat) {
    a.lock && !b.lock && HoldsLock(a, s) && forall t :: !HoldsLock(b, t)
  }

  /** It was free and goes to the waiting connection. */
  ghost predicate LockAcquired(a: Sys, b: Sys) {
    !a.lock && b.lock && a.listener.HasConnection? && forall t :: HoldsLock(b, t) <==> t == a.listener.s
  }

  lemma StaysKeeps(a: Sys, b: Sys)
    requires Mutex(a) && LockStays(a, b) && ListenerOk(b)
    ensures Mutex(b)
  {
    if s :| HoldsLock(a, s) {
      assert HoldsLock(b, s);
    }
    if s :| HoldsLock(b, s) {
      assert HoldsLock(a, s);
    }
  }

  lemma MovesKeep(a: Sys, b: Sys, s: nat)
    requires Mutex(a) && (LockReleased(a, b, s) || LockAcquired(a, b)) && ListenerOk(b)
    ensures Mutex(b)
  {
    if LockAcquired(a, b) {
      assert HoldsLock(b, a.listener.s);
    }
  }

  /** The session that holds the lock takes a turn: it goes on holding it or lets go of it. */
  lemma HolderMoves(a: Sys, b: Sys, s: nat, x: Session)
    requires Mutex(a) && s in a.sessions && InLoop(a.sessions[s]) && b.listener == a.listener
    requires b.sessions == a.sessions[s := x] && !x.pc.Waiting?
    requires if x.pc.Finished? then !b.lock else b.lock == a.lock
    ensures if x.pc.Finished? then LockReleased(a, b, s) else LockStays(a, b)
    ensures Mutex(b)
  {
    assert HoldsLock(a, s);
    forall t ensures HoldsLock(b, t) <==> HoldsLock(a, t) && (t == s ==> !x.pc.Finished?) {}
    if x.pc.Finished? {
      MovesKeep(a, b, s);
    } else {
      StaysKeeps(a, b);
    }
  }

  lemma ServeMutex(env: Env, a: Sys, step: Step)
    requires Mutex(a) && Next(env, a, step).Some?
    requires step.Serve? || step.Insert? || step.HangUp? || step.Cut?
    ensures var b := Next(env, a, step).value;
      Mutex(b) && (LockStays(a, b) || LockReleased(a, b, step.s))
  {
    hide Receive, Handle, Start, CheckRegistration, InsertRegistration, Written, Answers, Mutex, LockStays, LockReleased;
    var b := Next(env, a, step).value;
    HolderMoves(a, b, step.s, b.sessions[step.s]);
  }

  lemma ListenerMutex(env: Env, a: Sys, step: Step)
    requires Mutex(a) && Next(env, a, step).Some?
    requires step.Accept? || step.Acquire? || step.Spawn?
    ensures var b := Next(env, a, step).value;
      Mutex(b) && (if step.Acquire? then LockAcquired(a, b) else LockStays(a, b))
  {
    hide Receive, Handle, Start, CheckRegistration, InsertRegistration, Written, Answers;
    var b := Next(env, a, step).value;
    if step.Acquire? {
      forall t ensures HoldsLock(b, t) <==> t == a.listener.s {
        assert !HoldsLock(a, t);
      }
      MovesKeep(a, b, a.listener.s);
    } else {
      forall t ensures HoldsLock(b, t) <==> HoldsLock(a, t) {}
      StaysKeeps(a, b);
    }
  }

  lemma QuietMutex(env: Env, a: Sys, step: Step)
    requires Mutex(a) && Next(env, a, step).Some?
    requires step.Connect? || step.Deliver? || step.ReadFails? || step.Corrupt? || step.Stray?
    ensures var b := Next(env, a, step).value;
      Mutex(b) && LockStays(a, b)
  {
    hide Receive, Handle, Start;
    var b := Next(env, a, step).value;
    assert b.sessions[step.s].pc == a.sessions[step.s].pc && (a.sessions[step.s].started ==> b.sessions[step.s].started);
    forall t ensures HoldsLock(b, t) <==> HoldsLock(a, t) {}
    StaysKeeps(a, b);
  }

  /** Every step leaves the lock where it is, or its holder releases it, or it was free and goes to
      the connection that waited. */
  lemma MutexKept(env: Env, a: Sys, step: Step)
    requires Mutex(a) && Next(env, a, step).Some?
    ensures var b := Next(env, a, step).value;
      && Mutex(b)
      && (LockStays(a, b) || (exists s :: LockReleased(a, b, s)) || LockAcquired(a, b))
  {
    hide Next, Mutex, LockStays, LockReleased, LockAcquired;
    if step.Serve? || step.Insert? || step.HangUp? || step.Cut? {
      ServeMutex(env, a, step);
    } else if step.Accept? || step.Acquire? || step.Spawn? {
      ListenerMutex(env, a, step);
    } else {
      QuietMutex(env, a, step);
    }
  }

  // ----- what is in flight in a live session -----

  /** The checksum is that of what the tables hold for the path, or 0 when the row is not the owner's. */
  predicate Vouched(env: Env, t: Tables, id: Id, name: Bytes, crc: bv32) {
    if Owns(t, id, name) then
      var p := FullPath(env.fs, id, name);
      p in t.dict && Crc.Crc32(Saved(t.dict[p].content)) == crc
    else crc == 0
  }

  /** The file has been sent: the id is final and the checksum is the file's. */
  predicate FileSent(c: ClientState) {
    c.queue == [] && c.id != ZERO && c.calculatedCrc == TrueCrc(c.config)
  }

  /** Request `m` waits to be served. */
  predicate Asked(env: Env, t: Tables, c: ClientState, m: Request) {
    match m
    case Registration(_, _) => |c.queue| == 1
    case PublicKey(id, _, _) => |c.queue| == 1 && id == c.id != ZERO
    case SendFile(id, _, name, _) => FileSent(c) && id == c.id && name == c.config.fileName
    case CrcStatus(verdict, headerId, id, name) =>
      && FileSent(c) && headerId == id == c.id && name == c.config.fileName
      && (verdict == Valid ==> Vouched(env, t, c.id, c.config.fileName, c.calculatedCrc))
  }

  /** Response `r` waits to be read. */
  predicate Answered(env: Env, t: Tables, c: ClientState, r: Response) {
    match r
    case Registered(id) => |c.queue| == 1 && id != ZERO
    case RegistrationFailed => false
    case KeyReceived(_, _) => |c.queue| == 1 && c.id != ZERO
    case FileCrc(_, _, _, crc) => FileSent(c) && Vouched(env, t, c.id, c.config.fileName, crc)
    case Received => FileSent(c)
  }

  /** At most one message is in flight, and it is the one the client's state calls for. */
  predicate Talk(env: Env, t: Tables, x: Session) {
    && x.client.phase != Undefined
    && (x.client.phase == Rechecking ==> FileSent(x.client) && x.client.crcAttempts < NUM_OF_ATTEMPTS)
    && if x.pc.Checked? then x.toServer == [] && x.toClient == [] && |x.client.queue| == 1
       else if x.toClient == [] then
         x.toServer != [] ==> |x.toServer| == 1 && x.toServer[0].Some? && Asked(env, t, x.client, x.toServer[0].value)
       else x.toServer == [] && |x.toClient| == 1 && Answered(env, t, x.client, x.toClient[0])
  }

  /** Before its thread runs, a session has at most sent its first message. */
  predicate BeforeThread(x: Session) {
    && x.toClient == [] && x.client.phase in {Running, Ended}
    && (!x.started ==> x.toServer == [] && x.client.queue == [] && x.client.phase == Running)
    && (x.toServer != [] ==>
        && |x.toServer| == 1 && x.toServer[0].Some? && |x.client.queue| == 1
        && (x.toServer[0].value.Registration?
            || (x.toServer[0].value.PublicKey? && x.toServer[0].value.headerId == x.client.id != ZERO)))
  }

  predicate SessionOk(env: Env, t: Tables, x: Session) {
    && (x.pc.Waiting? ==> BeforeThread(x))
    && (!x.started ==> x.pc.Waiting?)
    && (InLoop(x) ==> Talk(env, t, x))
  }

  /** The written content has the checksum that its session's client computed, which is the one of
      the file it was told to send, and lies at that client's path. */
  predicate WriteOk(env: Env, a: Sys, w: Write) {
    && w.session in a.sessions
    && var c := a.sessions[w.session].client;
    && c.id != ZERO && w.file == env.fs.file(OwnPath(env, c))
    && Crc.Crc32(w.content) == c.calculatedCrc == TrueCrc(c.config)
  }

  ghost predicate Inv(env: Env, a: Sys) {
    && Mutex(a)
    && (forall s :: s in a.sessions ==> SessionOk(env, a.tables, a.sessions[s]))
    && (forall w :: w in a.writes ==> WriteOk(env, a, w))
  }

  lemma InitHolds(env: Env, a: Sys)
    requires Init(a)
    ensures Inv(env, a)
  {}

  // ----- one client step -----

  lemma StartTalks(x: Session)
    requires x.pc.Waiting? && BeforeThread(x) && !x.started
    ensures var (c, out) := Start(x.client);
            BeforeThread(x.(started := true, client := c, toServer := Sending(out)))
  {}

  /** The client's next request, or its silence, continues the conversation. */
  predicate Continues(env: Env, t: Tables, c: ClientState, out: seq<Request>) {
    && c.phase != Undefined
    && (c.phase == Rechecking ==> FileSent(c) && c.crcAttempts < NUM_OF_ATTEMPTS)
    && |out| <= 1 && (out != [] ==> Asked(env, t, c, out[0]))
  }

  lemma ChecksumContinues(env: Env, t: Tables, c: ClientState, r: Response)
    requires r.FileCrc? && FileSent(c) && Vouched(env, t, c.id, c.config.fileName, r.checksum)
    requires c.phase == Running || (c.phase == Rechecking && c.crcAttempts < NUM_OF_ATTEMPTS)
    ensures Continues(env, t, Receive(env, c, r).0, Receive(env, c, r).1)
  {
    hide TrueCrc, Vouched;
  }

  lemma RecheckOther(env: Env, t: Tables, c: ClientState, r: Response)
    requires !r.FileCrc? && FileSent(c) && c.phase == Rechecking && c.crcAttempts < NUM_OF_ATTEMPTS
    ensures Continues(env, t, Receive(env, c, r).0, Receive(env, c, r).1)
  {
    hide TrueCrc, Vouched;
  }

  lemma RunningOther(env: Env, t: Tables, c: ClientState, r: Response)
    requires !r.FileCrc? && Answered(env, t, c, r) && c.phase == Running
    ensures Continues(env, t, Receive(env, c, r).0, Receive(env, c, r).1)
  {
    hide TrueCrc, Vouched, Encrypt, ZeroPadded;
  }

  /** Reading the awaited response leaves the client with the next request to make, or done. */
  lemma DeliverTalks(env: Env, t: Tables, x: Session)
    requires Talk(env, t, x) && x.toClient != []
    ensures var (c, out) := Receive(env, x.client, x.toClient[0]);
            Talk(env, t, x.(client := c, toServer := x.toServer + Sending(out), toClient := x.toClient[1..]))
  {
    hide TrueCrc, Vouched, Receive, FileSent, Asked;
    var c, r := x.client, x.toClient[0];
    if c.phase == Ended {
      EndedSilent(env, c, r);
    } else if r.FileCrc? {
      ChecksumContinues(env, t, c, r);
    } else if c.phase == Rechecking {
      RecheckOther(env, t, c, r);
    } else {
      RunningOther(env, t, c, r);
    }
    var (c', out) := Receive(env, c, r);
    assert Continues(env, t, c', out);
    assert x.toServer + Sending(out) == Sending(out);
  }

  lemma EndedSilent(env: Env, c: ClientState, r: Response)
    requires c.phase == Ended
    ensures Receive(env, c, r) == (c, [])
  {}

  lemma ReceiveKeeps(env: Env, c: ClientState, r: Response)
    ensures Receive(env, c, r).0.config == c.config
    ensures c.id != ZERO ==> Receive(env, c, r).0.id == c.id
    ensures Receive(env, c, r).0.calculatedCrc == c.calculatedCrc
         || Receive(env, c, r).0.calculatedCrc == TrueCrc(c.config)
  {
    hide TrueCrc;
  }

  // ----- one server step -----

  /** Whatever becomes of a file, the answer vouches for what the tables then hold. */
  lemma StoreVouches(env: Env, t: Tables, id: Id, name: Bytes, content: Option<Bytes>)
    ensures var (t', crc) := StoreFile(env.fs, t, id, name, content);
            Vouched(env, t', id, name, if crc.Some? then crc.value else 0)
  {
    hide FullPath;
    Crc.CrcOfNothing();
  }

  lemma SendFileTalks(env: Env, t: Tables, x: Session, m: Request)
    requires x.pc.Reading? && Talk(env, t, x) && x.toServer == [Some(m)] && m.SendFile?
    ensures var h := HandleSendFile(env, t, m.headerId, m.contentSize, m.fileName, m.content);
            h.outcome == Served ==> Talk(env, h.tables, x.(toServer := [], toClient := x.toClient + h.responses))
  {
    hide TrueCrc, Decrypt, StoreFile, Vouched;
    if m.headerId in t.clients {
      StoreVouches(env, t, m.headerId, m.fileName,
        Decrypt(env.cipher, t.clients[m.headerId].aesKey, m.content, m.contentSize));
    }
  }

  lemma StatusTalks(env: Env, t: Tables, x: Session, m: Request, chance: Chance)
    requires x.pc.Reading? && Talk(env, t, x) && x.toServer == [Some(m)] && m.CrcStatus?
    ensures var h := Handle(env, t, Some(m), chance);
            h.outcome == Served ==> Talk(env, h.tables, x.(toServer := [], toClient := x.toClient + h.responses))
  {
    hide TrueCrc, FullPath;
  }

  lemma KeyTalks(env: Env, t: Tables, x: Session, m: Request, chance: Chance)
    requires x.pc.Reading? && Talk(env, t, x) && x.toServer == [Some(m)] && m.PublicKey?
    ensures var h := Handle(env, t, Some(m), chance);
            h.outcome == Served ==> Talk(env, h.tables, x.(toServer := [], toClient := x.toClient + h.responses))
  {
    hide TrueCrc, Vouched;
  }

  /** An approval writes a content with the client's checksum at the client's path. */
  lemma ApprovalWrites(env: Env, t: Tables, s: nat, x: Session, m: Request, opens: bool, w: Write)
    requires x.pc.Reading? && Talk(env, t, x) && x.toServer == [Some(m)] && w in Written(env, s, t, Some(m), opens)
    ensures w.session == s && x.client.id != ZERO && w.file == env.fs.file(OwnPath(env, x.client))
    ensures Crc.Crc32(w.content) == x.client.calculatedCrc == TrueCrc(x.client.config)
  {
    hide FullPath;
  }

  // ----- every step -----

  /** Replacing one session and, if that session runs, the tables. */
  lemma PutKeeps(env: Env, a: Sys, a': Sys, s: nat, x: Session)
    requires Inv(env, a) && s in a.sessions && a'.sessions == a.sessions[s := x] && Mutex(a')
    requires a'.tables == a.tables || InLoop(a.sessions[s])
    requires SessionOk(env, a'.tables, x)
    requires x.client.config == a.sessions[s].client.config
    requires a.sessions[s].client.id != ZERO ==> x.client.id == a.sessions[s].client.id
    requires x.client.calculatedCrc == a.sessions[s].client.calculatedCrc
          || x.client.calculatedCrc == TrueCrc(x.client.config)
    requires forall w :: w in a'.writes ==> w in a.writes || WriteOk(env, a', w)
    ensures Inv(env, a')
  {
    hide TrueCrc, Talk, BeforeThread;
    forall u | u in a'.sessions ensures SessionOk(env, a'.tables, a'.sessions[u]) {
      if u != s {
        assert SessionOk(env, a.tables, a.sessions[u]);
        assert InLoop(a.sessions[u]) && InLoop(a.sessions[s]) ==> HoldsLock(a, u) && HoldsLock(a, s);
      }
    }
    forall w | w in a'.writes ensures WriteOk(env, a', w) {
      if w in a.writes {
        assert WriteOk(env, a, w);
      }
    }
  }

  /** The conversation goes on after any request that is served. */
  lemma ServedTalks(env: Env, t: Tables, x: Session, m: Request, chance: Chance)
    requires x.pc.Reading? && Talk(env, t, x) && x.toServer == [Some(m)] && !m.Registration?
    ensures var h := Handle(env, t, Some(m), chance);
      h.outcome == Served ==> Talk(env, h.tables, x.(toServer := [], toClient := x.toClient + h.responses))
  {
    hide Talk, TrueCrc, Handle, HandleSendFile;
    match m {
      case PublicKey(_, _, _) => KeyTalks(env, t, x, m, chance);
      case SendFile(_, _, _, _) =>
        SendFileTalks(env, t, x, m);
        FileHandled(env, t, m, chance);
      case CrcStatus(_, _, _, _) => StatusTalks(env, t, x, m, chance);
    }
  }

  lemma ServeKept(env: Env, a: Sys, s: nat, newKey: Key, opens: bool)
    requires Inv(env, a) && Next(env, a, Serve(s, newKey, opens)).Some?
    ensures Inv(env, Next(env, a, Serve(s, newKey, opens)).value)
  {
    hide TrueCrc, Handle, CheckRegistration, Written, Mutex, SessionOk, WriteOk;
    ServeMutex(env, a, Serve(s, newKey, opens));
    var a', x := Next(env, a, Serve(s, newKey, opens)).value, a.sessions[s];
    ServeTalks(env, a, s, newKey, opens);
    forall w | w in a'.writes ensures w in a.writes || WriteOk(env, a', w) {
      if w !in a.writes {
        OneAsked(env, a.tables, x);
        ApprovalWrites(env, a.tables, s, x, x.toServer[0].value, opens, w);
        WriteIsOk(env, a', w);
      }
    }
    PutKeeps(env, a, a', s, a'.sessions[s]);
  }

  lemma WriteIsOk(env: Env, a: Sys, w: Write)
    requires w.session in a.sessions && a.sessions[w.session].client.id != ZERO
    requires w.file == env.fs.file(OwnPath(env, a.sessions[w.session].client))
    requires var c := a.sessions[w.session].client; Crc.Crc32(w.content) == c.calculatedCrc == TrueCrc(c.config)
    ensures WriteOk(env, a, w)
  {}

  lemma OneAsked(env: Env, t: Tables, x: Session)
    requires SessionOk(env, t, x) && x.pc.Reading? && x.toServer != []
    ensures x.toServer == [x.toServer[0]] && x.toServer[0].Some? && x.toServer[1..] == []
    ensures Talk(env, t, x) && x.toClient == [] && x.started
  {}

  /** Serving a request leaves its session in order. */
  lemma ServeTalks(env: Env, a: Sys, s: nat, newKey: Key, opens: bool)
    requires Next(env, a, Serve(s, newKey, opens)).Some? && SessionOk(env, a.tables, a.sessions[s])
    ensures var b := Next(env, a, Serve(s, newKey, opens)).value;
      && SessionOk(env, b.tables, b.sessions[s]) && b.sessions[s].client == a.sessions[s].client
      && b.sessions == a.sessions[s := b.sessions[s]]
  {
    hide TrueCrc, Handle, CheckRegistration, Written;
    var x := a.sessions[s];
    OneAsked(env, a.tables, x);
    var m := x.toServer[0].value;
    if m.Registration? {
      CheckedNeverCrashes(env, a.tables, x.toServer[0], Chance(ZERO, newKey, opens));
    } else {
      hide Talk;
      ServedTalks(env, a.tables, x, m, Chance(ZERO, newKey, opens));
    }
  }

  lemma InsertKept(env: Env, a: Sys, s: nat, newId: Id)
    requires Inv(env, a) && Next(env, a, Insert(s, newId)).Some?
    ensures Inv(env, Next(env, a, Insert(s, newId)).value)
  {
    hide TrueCrc, Vouched;
    ServeMutex(env, a, Insert(s, newId));
    var a' := Next(env, a, Insert(s, newId)).value;
    assert SessionOk(env, a.tables, a.sessions[s]) && HoldsLock(a, s);
    PutKeeps(env, a, a', s, a'.sessions[s]);
  }

  lemma DeliverKept(env: Env, a: Sys, s: nat)
    requires Inv(env, a) && Next(env, a, Deliver(s)).Some?
    ensures Inv(env, Next(env, a, Deliver(s)).value)
  {
    hide TrueCrc, Receive, Talk, Vouched;
    QuietMutex(env, a, Deliver(s));
    var a' := Next(env, a, Deliver(s)).value;
    var x := a.sessions[s];
    assert SessionOk(env, a.tables, x);
    ReceiveKeeps(env, x.client, x.toClient[0]);
    if InLoop(x) {
      DeliverTalks(env, a.tables, x);
    }
    PutKeeps(env, a, a', s, a'.sessions[s]);
  }

  lemma ConnectKept(env: Env, a: Sys, s: nat)
    requires Inv(env, a) && Next(env, a, Connect(s)).Some?
    ensures Inv(env, Next(env, a, Connect(s)).value)
  {
    hide TrueCrc, Talk, Start;
    QuietMutex(env, a, Connect(s));
    var a', x := Next(env, a, Connect(s)).value, a.sessions[s];
    assert SessionOk(env, a.tables, x);
    StartKeeps(x.client);
    StartTalks(x);
    PutKeeps(env, a, a', s, a'.sessions[s]);
  }

  lemma HangUpKept(env: Env, a: Sys, s: nat)
    requires Inv(env, a) && Next(env, a, HangUp(s)).Some?
    ensures Inv(env, Next(env, a, HangUp(s)).value)
  {
    hide TrueCrc, Talk, BeforeThread;
    ServeMutex(env, a, HangUp(s));
    var a' := Next(env, a, HangUp(s)).value;
    assert SessionOk(env, a.tables, a.sessions[s]);
    PutKeeps(env, a, a', s, a'.sessions[s]);
  }

  /** The client closes inside a file: its thread keeps the lock. */
  lemma CutKept(env: Env, a: Sys, s: nat)
    requires Inv(env, a) && Next(env, a, Cut(s)).Some?
    ensures Inv(env, Next(env, a, Cut(s)).value)
  {
    hide TrueCrc, Talk, BeforeThread;
    ServeMutex(env, a, Cut(s));
    var a' := Next(env, a, Cut(s)).value;
    assert SessionOk(env, a.tables, a.sessions[s]);
    PutKeeps(env, a, a', s, a'.sessions[s]);
  }

  lemma ReadFailsKept(env: Env, a: Sys, s: nat)
    requires Inv(env, a) && Next(env, a, ReadFails(s)).Some?
    ensures Inv(env, Next(env, a, ReadFails(s)).value)
  {
    hide TrueCrc, Vouched;
    QuietMutex(env, a, ReadFails(s));
    var a' := Next(env, a, ReadFails(s)).value;
    assert SessionOk(env, a.tables, a.sessions[s]);
    PutKeeps(env, a, a', s, a'.sessions[s]);
  }

  /** Corruption replaces the body of a file message and nothing that is claimed about it. */
  lemma CorruptKept(env: Env, a: Sys, s: nat, body: Bytes)
    requires Inv(env, a) && Next(env, a, Corrupt(s, body)).Some?
    ensures Inv(env, Next(env, a, Corrupt(s, body)).value)
  {
    hide TrueCrc, Vouched;
    QuietMutex(env, a, Corrupt(s, body));
    var a', x := Next(env, a, Corrupt(s, body)).value, a.sessions[s];
    assert SessionOk(env, a.tables, x);
    var x' := a'.sessions[s];
    var m, m' := x.toServer[0].value, x'.toServer[0].value;
    assert |x'.toServer| == |x.toServer|;
    assert m'.SendFile? && m'.headerId == m.headerId && m'.fileName == m.fileName;
    assert InLoop(x) ==> Asked(env, a.tables, x.client, m);
    PutKeeps(env, a, a', s, x');
  }

  /** A client in undefined state has no live session, so what it sends does not matter. */
  lemma StrayKept(env: Env, a: Sys, s: nat, m: Option<Request>)
    requires Inv(env, a) && Next(env, a, Stray(s, m)).Some?
    ensures Inv(env, Next(env, a, Stray(s, m)).value)
  {
    hide TrueCrc, Vouched;
    QuietMutex(env, a, Stray(s, m));
    var a' := Next(env, a, Stray(s, m)).value;
    assert SessionOk(env, a.tables, a.sessions[s]);
    PutKeeps(env, a, a', s, a'.sessions[s]);
  }

  lemma StartKeeps(c: ClientState)
    ensures Start(c).0.config == c.config && Start(c).0.id == c.id && Start(c).0.calculatedCrc == c.calculatedCrc
  {}

  lemma ListenerKept(env: Env, a: Sys, step: Step)
    requires Inv(env, a) && Next(env, a, step).Some?
    requires step.Accept? || step.Acquire? || step.Spawn?
    ensures Inv(env, Next(env, a, step).value)
  {
    hide TrueCrc, Vouched;
    ListenerMutex(env, a, step);
    var a' := Next(env, a, step).value;
    if step.Spawn? {
      var s := a.listener.s;
      assert SessionOk(env, a.tables, a.sessions[s]);
      PutKeeps(env, a, a', s, a'.sessions[s]);
    }
  }

  lemma InvKept(env: Env, a: Sys, step: Step)
    requires Inv(env, a) && Next(env, a, step).Some?
    ensures Inv(env, Next(env, a, step).value)
  {
    match step
    case Serve(s, newKey, opens) => ServeKept(env, a, s, newKey, opens);
    case Insert(s, newId) => InsertKept(env, a, s, newId);
    case Deliver(s) => DeliverKept(env, a, s);
    case Accept(_) => ListenerKept(env, a, step);
    case Acquire => ListenerKept(env, a, step);
    case Spawn => ListenerKept(env, a, step);
    case Connect(s) => ConnectKept(env, a, s);
    case HangUp(s) => HangUpKept(env, a, s);
    case Cut(s) => CutKept(env, a, s);
    case ReadFails(s) => ReadFailsKept(env, a, s);
    case Corrupt(s, body) => CorruptKept(env, a, s, body);
    case Stray(s, m) => StrayKept(env, a, s, m);
  }

  // ----- one name per client -----

  /** A name that passed the check stays free until its session inserts it. */
  ghost predicate NamesOk(a: Sys) {
    && NamesUnique(a.tables)
    && (forall s :: s in a.sessions && a.sessions[s].pc.Checked? ==> !NameTaken(a.tables, a.sessions[s].pc.name))
  }

  lemma HandleKeepsNames(env: Env, t: Tables, m: Option<Request>, x: Chance)
    requires m.Some? ==> !m.value.Registration?
    ensures var t' := Handle(env, t, m, x).tables;
            t'.clients.Keys == t.clients.Keys && forall i :: i in t.clients ==> t'.clients[i].name == t.clients[i].name
  {
    hide StoreFile, Verify, Decrypt;
    match m {
      case Some(SendFile(id, size, name, body)) =>
        StoreKeepsClients(env.fs, t, id, name,
          if id in t.clients then Decrypt(env.cipher, t.clients[id].aesKey, body, size) else None);
      case Some(CrcStatus(Valid, _, id, name)) =>
        VerifyKeepsClients(env.fs, t, id, name, x.opens);
      case _ =>
    }
  }

  lemma OnlyHolderChecked(env: Env, a: Sys, s: nat)
    requires Inv(env, a) && HoldsLock(a, s)
    ensures forall u :: u in a.sessions && u != s ==> !a.sessions[u].pc.Checked?
  {
    forall u | u in a.sessions && u != s ensures !a.sessions[u].pc.Checked? {
      assert a.sessions[u].pc.Checked? ==> HoldsLock(a, u);
    }
  }

  lemma ServeKeepsNames(env: Env, a: Sys, s: nat, newKey: Key, opens: bool)
    requires Inv(env, a) && NamesOk(a) && Next(env, a, Serve(s, newKey, opens)).Some?
    ensures NamesOk(Next(env, a, Serve(s, newKey, opens)).value)
  {
    hide Handle, Receive, Start, Talk, BeforeThread, WriteOk, Written, TrueCrc;
    var m := a.sessions[s].toServer[0];
    assert HoldsLock(a, s);
    OnlyHolderChecked(env, a, s);
    if m.Some? && m.value.Registration? {
    } else {
      HandleKeepsNames(env, a.tables, m, Chance(ZERO, newKey, opens));
    }
  }

  /** The thread between check and insertion holds the lock, so no other insertion intervenes. */
  lemma NamesKept(env: Env, a: Sys, step: Step)
    requires Inv(env, a) && NamesOk(a) && Next(env, a, step).Some?
    ensures NamesOk(Next(env, a, step).value)
  {
    hide Handle, Receive, Start, Talk, BeforeThread, WriteOk, Written, TrueCrc;
    match step
    case Serve(s, newKey, opens) =>
      ServeKeepsNames(env, a, s, newKey, opens);
    case Insert(s, newId) =>
      assert HoldsLock(a, s);
      OnlyHolderChecked(env, a, s);
    case _ =>
  }

  // ----- the disk -----

  function Replay(disk: map<Bytes, Bytes>, writes: seq<Write>): map<Bytes, Bytes> {
    if writes == [] then disk
    else Replay(disk, writes[..|writes| - 1])[writes[|writes| - 1].file := writes[|writes| - 1].content]
  }

  lemma HandleWrites(env: Env, s: nat, t: Tables, m: Option<Request>, x: Chance)
    ensures Handle(env, t, m, x).tables.disk == Replay(t.disk, Written(env, s, t, m, x.opens))
  {
    hide FullPath;
    var w := Written(env, s, t, m, x.opens);
    if w != [] {
      assert w[..0] == [];
    }
  }

  lemma {:induction false} ReplayAppends(disk: map<Bytes, Bytes>, a: seq<Write>, b: seq<Write>)
    ensures Replay(disk, a + b) == Replay(Replay(disk, a), b)
    decreases |b|
  {
    if b == [] {
      assert a + b == a;
    } else {
      assert (a + b)[..|a + b| - 1] == a + b[..|b| - 1];
      ReplayAppends(disk, a, b[..|b| - 1]);
    }
  }

  /** The record of writes is complete: it accounts for everything on disk. */
  lemma DiskIsReplay(env: Env, disk: map<Bytes, Bytes>, a: Sys, step: Step)
    requires a.tables.disk == Replay(disk, a.writes) && Next(env, a, step).Some?
    ensures var a' := Next(env, a, step).value; a'.tables.disk == Replay(disk, a'.writes)
  {
    hide Handle, Receive, Start, Written;
    if step.Serve? {
      var m := a.sessions[step.s].toServer[0];
      HandleWrites(env, step.s, a.tables, m, Chance(ZERO, step.newKey, step.opens));
      ReplayAppends(disk, a.writes, Written(env, step.s, a.tables, m, step.opens));
    }
  }

  // ----- whole runs -----

  lemma {:induction false} RunKeeps(env: Env, disk: map<Bytes, Bytes>, a: Sys, steps: seq<Step>)
    requires Inv(env, a) && a.tables.disk == Replay(disk, a.writes) && Run(env, a, steps).Some?
    ensures var b := Run(env, a, steps).value;
            && Inv(env, b) && b.tables.disk == Replay(disk, b.writes)
            && (NamesOk(a) ==> NamesOk(b))
    decreases |steps|
  {
    hide Next, Inv, NamesOk, Replay;
    if steps != [] {
      InvKept(env, a, steps[0]);
      DiskIsReplay(env, disk, a, steps[0]);
      if NamesOk(a) {
        NamesKept(env, a, steps[0]);
      }
      RunKeeps(env, disk, Next(env, a, steps[0]).value, steps[1..]);
    }
  }

  /** Safety of every run from the start: whatever the server's disk holds beyond what was there
      before was written by approvals, each in a session whose client had computed, for the file
      it was told to send, exactly the checksum of the content written, at that client's path. */
  lemma OnlyMatchingContentIsWritten(env: Env, a: Sys, steps: seq<Step>)
    requires Init(a) && Run(env, a, steps).Some?
    ensures var b := Run(env, a, steps).value;
            && b.tables.disk == Replay(a.tables.disk, b.writes)
            && forall w :: w in b.writes ==> WriteOk(env, b, w)
  {
    InitHolds(env, a);
    RunKeeps(env, a.tables.disk, a, steps);
  }

  /** At most one thread is inside the read loop, in every reachable state. */
  lemma MutualExclusion(env: Env, a: Sys, steps: seq<Step>)
    requires Init(a) && Run(env, a, steps).Some?
    ensures var b := Run(env, a, steps).value;
            forall s, t :: s in b.sessions && t in b.sessions && InLoop(b.sessions[s]) && InLoop(b.sessions[t]) ==> s == t
  {
    InitHolds(env, a);
    RunKeeps(env, a.tables.disk, a, steps);
    var b := Run(env, a, steps).value;
    forall s, t | s in b.sessions && t in b.sessions && InLoop(b.sessions[s]) && InLoop(b.sessions[t]) ensures s == t {
      assert HoldsLock(b, s) && HoldsLock(b, t);
    }
  }

  /** The check-then-insert of registration never yields two clients of one name. */
  lemma NamesStayUnique(env: Env, a: Sys, steps: seq<Step>)
    requires Init(a) && NamesUnique(a.tables) && Run(env, a, steps).Some?
    ensures NamesUnique(Run(env, a, steps).value.tables)
  {
    InitHolds(env, a);
    RunKeeps(env, a.tables.disk, a, steps);
  }

  /** A corruption confined to 32 consecutive bits never reaches the disk: what is written either is
      the client's padded file or differs from it more widely. */
  lemma BurstNeverWritten(env: Env, a: Sys, steps: seq<Step>, w: Write, at: nat)
    requires Init(a) && Run(env, a, steps).Some? && w in Run(env, a, steps).value.writes
    ensures var b := Run(env, a, steps).value;
            && w.session in b.sessions
            && var padded := ZeroPadded(b.sessions[w.session].client.config.file);
            Crc.DifferInBits(w.content, padded, at) ==> w.content == padded
  {
    OnlyMatchingContentIsWritten(env, a, steps);
    var b := Run(env, a, steps).value;
    assert WriteOk(env, b, w);
    var padded := ZeroPadded(b.sessions[w.session].client.config.file);
    if Crc.DifferInBits(w.content, padded, at) && w.content != padded {
      Crc.BitBurstDetected(w.content, padded, at);
    }
  }

  /** A request awaiting the server in a live session. */
  predicate InFlight(x: Session, m: Request) {
    InLoop(x) && Some(m) in x.toServer
  }

  /** No run has an approval in flight while the tables hold, as the sender's own, a content that
      differs from its padded file within 32 consecutive bits. */
  lemma BurstNeverApproved(env: Env, a: Sys, steps: seq<Step>, s: nat, m: Request, at: nat)
    requires Init(a) && Run(env, a, steps).Some?
    requires var b := Run(env, a, steps).value;
             && s in b.sessions && InFlight(b.sessions[s], m) && m.CrcStatus? && m.verdict == Valid
             && Owns(b.tables, m.clientId, m.fileName)
    ensures var b := Run(env, a, steps).value;
            var p, padded := FullPath(env.fs, m.clientId, m.fileName), ZeroPadded(b.sessions[s].client.config.file);
            && p in b.tables.dict
            && (Crc.DifferInBits(Saved(b.tables.dict[p].content), padded, at) ==>
                Saved(b.tables.dict[p].content) == padded)
  {
    InitHolds(env, a);
    RunKeeps(env, a.tables.disk, a, steps);
    var b := Run(env, a, steps).value;
    ApprovalVouched(env, b, s, m);
    var p, padded := FullPath(env.fs, m.clientId, m.fileName), ZeroPadded(b.sessions[s].client.config.file);
    var content := Saved(b.tables.dict[p].content);
    if Crc.DifferInBits(content, padded, at) && content != padded {
      Crc.BitBurstDetected(content, padded, at);
    }
  }

  lemma ApprovalVouched(env: Env, b: Sys, s: nat, m: Request)
    requires Inv(env, b) && s in b.sessions && InFlight(b.sessions[s], m) && m.CrcStatus? && m.verdict == Valid
    requires Owns(b.tables, m.clientId, m.fileName)
    ensures var p := FullPath(env.fs, m.clientId, m.fileName);
            && p in b.tables.dict
            && Crc.Crc32(Saved(b.tables.dict[p].content)) == TrueCrc(b.sessions[s].client.config)
  {
    hide TrueCrc, Mutex, WriteOk;
    assert SessionOk(env, b.tables, b.sessions[s]);
    assert b.sessions[s].toServer == [Some(m)];
  }

  // ----- threads that never let go of the lock -----

  predicate Lost(x: Session) { x.pc.Dead? || x.pc.Stuck? }

  /** A thread is lost exactly when it serves a request whose handler raises, which `CrashesExactly`
      lists, or when its client closes inside a file. */
  lemma LostExactly(env: Env, a: Sys, step: Step, s: nat)
    requires s in a.sessions && !Lost(a.sessions[s]) && Mutex(a) && Next(env, a, step).Some?
    ensures var b := Next(env, a, step).value;
      && s in b.sessions
      && (b.sessions[s].pc.Stuck? <==> step == Cut(s))
      && (b.sessions[s].pc.Dead? <==>
            && step.Serve? && step.s == s
            && Handle(env, a.tables, a.sessions[s].toServer[0], Chance(ZERO, step.newKey, step.opens)).outcome == Crashed)
  {
    hide Receive, Start, Written, Answers, Handle, CheckRegistration, InsertRegistration, Mutex;
    if step.Serve? && step.s == s {
      ServeLoses(env, a, s, step.newKey, step.opens);
    } else if step.Insert? && step.s == s {
      InsertNeverCrashes(a.tables, a.sessions[s].pc.name, step.newId);
    }
  }

  lemma ServeLoses(env: Env, a: Sys, s: nat, newKey: Key, opens: bool)
    requires Next(env, a, Serve(s, newKey, opens)).Some?
    ensures var b, outcome := Next(env, a, Serve(s, newKey, opens)).value,
        Handle(env, a.tables, a.sessions[s].toServer[0], Chance(ZERO, newKey, opens)).outcome;
      && s in b.sessions && !b.sessions[s].pc.Stuck?
      && (b.sessions[s].pc.Dead? <==> outcome == Crashed)
  {
    hide Written, Answers, Handle, CheckRegistration;
    var m, x := a.sessions[s].toServer[0], Chance(ZERO, newKey, opens);
    CheckedNeverCrashes(env, a.tables, m, x);
    NeverSpins(env, a.tables, m, x);
  }

  lemma NeverSpins(env: Env, t: Tables, m: Option<Request>, x: Chance)
    ensures Handle(env, t, m, x).outcome != Spinning
  {
    CrashesExactly(env, t, m, x);
  }

  lemma CheckedNeverCrashes(env: Env, t: Tables, m: Option<Request>, x: Chance)
    ensures m.Some? && m.value.Registration? ==>
      && Handle(env, t, m, x).outcome != Crashed
      && (CheckRegistration(t, m.value.name).Some? ==> CheckRegistration(t, m.value.name).value.outcome == Refused)
  {}

  lemma InsertNeverCrashes(t: Tables, name: Bytes, id: Id)
    ensures InsertRegistration(t, name, id).outcome in {Served, Refused}
  {}

  lemma LostStep(env: Env, a: Sys, step: Step, s: nat)
    requires s in a.sessions && Lost(a.sessions[s]) && Next(env, a, step).Some? && a.listener != HasLock(s)
    ensures var b := Next(env, a, step).value;
            s in b.sessions && Lost(b.sessions[s])
  {
    hide Handle, Receive, Start, Written, Answers, CheckRegistration, InsertRegistration;
  }

  lemma {:induction false} LostStays(env: Env, a: Sys, steps: seq<Step>, s: nat)
    requires Inv(env, a) && s in a.sessions && Lost(a.sessions[s]) && Run(env, a, steps).Some?
    ensures var b := Run(env, a, steps).value; s in b.sessions && Lost(b.sessions[s])
    decreases |steps|
  {
    hide Next;
    if steps != [] {
      LostStep(env, a, steps[0], s);
      InvKept(env, a, steps[0]);
      LostStays(env, Next(env, a, steps[0]).value, steps[1..], s);
    }
  }

  /** In every reachable state the lock is taken exactly when some thread is in the read loop, or on
      its way there, or lost. */
  lemma LockHasHolder(env: Env, a: Sys, steps: seq<Step>)
    requires Init(a) && Run(env, a, steps).Some?
    ensures var b := Run(env, a, steps).value; b.lock <==> exists s :: HoldsLock(b, s)
  {
    InitHolds(env, a);
    RunKeeps(env, a.tables.disk, a, steps);
  }

  /** Once a thread is lost, no session is ever served again: the lock is never released. */
  lemma NothingServedAfterLoss(env: Env, a: Sys, steps: seq<Step>, more: seq<Step>, s: nat)
    requires Init(a) && Run(env, a, steps).Some? && Run(env, Run(env, a, steps).value, more).Some?
    requires var b := Run(env, a, steps).value; s in b.sessions && Lost(b.sessions[s])
    ensures var c := Run(env, Run(env, a, steps).value, more).value;
            c.lock && forall t :: t in c.sessions ==> !InLoop(c.sessions[t])
  {
    InitHolds(env, a);
    RunKeeps(env, a.tables.disk, a, steps);
    var b := Run(env, a, steps).value;
    RunKeeps(env, a.tables.disk, b, more);
    LostStays(env, b, more, s);
    var c := Run(env, b, more).value;
    assert HoldsLock(c, s);
    forall t | t in c.sessions ensures !InLoop(c.sessions[t]) {
      assert InLoop(c.sessions[t]) ==> HoldsLock(c, t);
    }
  }
}
