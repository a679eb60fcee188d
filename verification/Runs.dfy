/** Runs that exist: a session step by step through listener, lock, thread, channels and client. */
module Runs {
  import opened Octets
  import opened Blocks
  import opened Protocol
  import opened Payload
  import opened Paths
  import opened Store
  import opened Server
  import opened Client
  import opened System
  import opened Wrappers
  import Single = Session
  import Crc

  /** The system while the thread of session `s` is in the loop: only that session and the tables have
      moved since `a`. */
  function During(a: Sys, s: nat, t: Tables, x: Session, writes: seq<Write>): Sys {
    Sys(t, true, Listening, a.sessions[s := x], writes)
  }

  lemma {:induction false} RunAppends(env: Env, a: Sys, first: seq<Step>, rest: seq<Step>)
    requires Run(env, a, first).Some?
    ensures Run(env, a, first + rest) == Run(env, Run(env, a, first).value, rest)
    decreases |first|
  {
    hide Next;
    if first == [] {
      assert first + rest == rest;
    } else {
      assert (first + rest)[1..] == first[1..] + rest;
      RunAppends(env, Next(env, a, first[0]).value, first[1..], rest);
    }
  }

  lemma OneStep(env: Env, a: Sys, step: Step)
    ensures Run(env, a, [step]) == Next(env, a, step)
  {
    hide Next;
    assert [step][1..] == [];
  }

  lemma TwoSteps(env: Env, a: Sys, first: Step, second: Step)
    requires Next(env, a, first).Some?
    ensures Run(env, a, [first, second]) == Next(env, Next(env, a, first).value, second)
  {
    hide Next;
    assert [first, second] == [first] + [second];
    OneStep(env, a, first);
    RunAppends(env, a, [first], [second]);
    OneStep(env, Next(env, a, first).value, second);
  }

  /** Connecting, being accepted, and getting the lock and a thread. */
  lemma Opening(env: Env, a: Sys, s: nat)
    requires Init(a) && s in a.sessions
    ensures var x := a.sessions[s];
      var (c, out) := Start(x.client);
      Run(env, a, [Connect(s), Accept(s), Acquire, Spawn])
      == Some(During(a, s, a.tables, Session(Reading, true, c, Sending(out), []), []))
  {
    hide Start, Run;
    var x := a.sessions[s];
    var (c, out) := Start(x.client);
    var y := Session(Waiting, true, c, Sending(out), []);
    var b := Sys(a.tables, false, Listening, a.sessions[s := y], []);
    assert Next(env, a, Connect(s)) == Some(b);
    assert Next(env, b, Accept(s)) == Some(b.(listener := HasConnection(s)));
    var d := b.(lock := true, listener := HasLock(s));
    assert Next(env, b.(listener := HasConnection(s)), Acquire) == Some(d);
    assert a.sessions[s := y][s := y.(pc := Reading)] == a.sessions[s := y.(pc := Reading)];
    assert Next(env, d, Spawn) == Some(During(a, s, a.tables, y.(pc := Reading), []));
    hide Next;
    TwoSteps(env, a, Connect(s), Accept(s));
    TwoSteps(env, b.(listener := HasConnection(s)), Acquire, Spawn);
    RunAppends(env, a, [Connect(s), Accept(s)], [Acquire, Spawn]);
    assert [Connect(s), Accept(s)] + [Acquire, Spawn] == [Connect(s), Accept(s), Acquire, Spawn];
  }

  /** A request served and its response delivered. */
  lemma RoundTrip(env: Env, a: Sys, s: nat, t: Tables, c: ClientState, m: Request, w: seq<Write>, x: Chance)
    requires !m.Registration? && Opens(Some(m), x.opens)
    requires var h := Handle(env, t, Some(m), Chance(ZERO, x.newKey, x.opens));
      h.outcome == Served && |h.responses| == 1
    ensures var h := Handle(env, t, Some(m), Chance(ZERO, x.newKey, x.opens));
      var (c', out) := Receive(env, c, h.responses[0]);
      Run(env, During(a, s, t, Session(Reading, true, c, [Some(m)], []), w), [Serve(s, x.newKey, x.opens), Deliver(s)])
      == Some(During(a, s, h.tables, Session(Reading, true, c', Sending(out), []),
                     w + Written(env, s, t, Some(m), x.opens)))
  {
    hide Handle, Receive, Opens, Run, Written;
    var h := Handle(env, t, Some(m), Chance(ZERO, x.newKey, x.opens));
    var (c', out) := Receive(env, c, h.responses[0]);
    var b := During(a, s, t, Session(Reading, true, c, [Some(m)], []), w);
    var x' := Session(Reading, true, c, [], h.responses);
    var w' := w + Written(env, s, t, Some(m), x.opens);
    assert [Some(m)][1..] == [] && [] + h.responses == h.responses;
    assert a.sessions[s := Session(Reading, true, c, [Some(m)], [])][s := x'] == a.sessions[s := x'];
    assert Next(env, b, Serve(s, x.newKey, x.opens)) == Some(During(a, s, h.tables, x', w'));
    assert h.responses == [h.responses[0]];
    Delivery(env, a, s, h.tables, c, h.responses[0], w');
    hide Next, During;
    TwoSteps(env, b, Serve(s, x.newKey, x.opens), Deliver(s));
  }

  /** A registration served, its client inserted, and the response delivered. */
  lemma RegistrationTrip(env: Env, a: Sys, s: nat, t: Tables, c: ClientState, m: Request, w: seq<Write>, newId: Id,
                         x: Chance)
    requires m.Registration? && CheckRegistration(t, m.name) == None && newId != ZERO && newId !in t.clients
    ensures var (c', out) := Receive(env, c, Registered(newId));
      Run(env, During(a, s, t, Session(Reading, true, c, [Some(m)], []), w),
          [Serve(s, x.newKey, x.opens), Insert(s, newId), Deliver(s)])
      == Some(During(a, s, AddClient(t, newId, m.name).0, Session(Reading, true, c', Sending(out), []), w))
  {
    hide Receive, Run, CheckRegistration, Written;
    var (c', out) := Receive(env, c, Registered(newId));
    var b := During(a, s, t, Session(Reading, true, c, [Some(m)], []), w);
    var checked := Session(Checked(m.name), true, c, [], []);
    var t' := AddClient(t, newId, m.name).0;
    assert [Some(m)][1..] == [];
    assert a.sessions[s := Session(Reading, true, c, [Some(m)], [])][s := checked] == a.sessions[s := checked];
    assert Next(env, b, Serve(s, x.newKey, x.opens)) == Some(During(a, s, t, checked, w));
    var answered := Session(Reading, true, c, [], [Registered(newId)]);
    Inserted(env, a, s, t, c, m.name, w, newId);
    Delivery(env, a, s, t', c, Registered(newId), w);
    hide Next, During;
    TwoSteps(env, b, Serve(s, x.newKey, x.opens), Insert(s, newId));
    OneStep(env, During(a, s, t', answered, w), Deliver(s));
    RunAppends(env, b, [Serve(s, x.newKey, x.opens), Insert(s, newId)], [Deliver(s)]);
    assert [Serve(s, x.newKey, x.opens), Insert(s, newId)] + [Deliver(s)]
        == [Serve(s, x.newKey, x.opens), Insert(s, newId), Deliver(s)];
  }

  lemma Inserted(env: Env, a: Sys, s: nat, t: Tables, c: ClientState, name: Bytes, w: seq<Write>, newId: Id)
    requires newId != ZERO && newId !in t.clients
    ensures Next(env, During(a, s, t, Session(Checked(name), true, c, [], []), w), Insert(s, newId))
      == Some(During(a, s, AddClient(t, newId, name).0, Session(Reading, true, c, [], [Registered(newId)]), w))
  {
    assert [] + [Registered(newId)] == [Registered(newId)];
    var y := Session(Reading, true, c, [], [Registered(newId)]);
    assert a.sessions[s := Session(Checked(name), true, c, [], [])][s := y] == a.sessions[s := y];
  }

  lemma Delivery(env: Env, a: Sys, s: nat, t: Tables, c: ClientState, r: Response, w: seq<Write>)
    ensures var (c', out) := Receive(env, c, r);
      Next(env, During(a, s, t, Session(Reading, true, c, [], [r]), w), Deliver(s))
      == Some(During(a, s, t, Session(Reading, true, c', Sending(out), []), w))
  {
    hide Receive;
    var (c', out) := Receive(env, c, r);
    var y := Session(Reading, true, c', Sending(out), []);
    assert [r][1..] == [] && [] + Sending(out) == Sending(out);
    assert a.sessions[s := Session(Reading, true, c, [], [r])][s := y] == a.sessions[s := y];
  }

  /** The client hangs up. */
  lemma Closing(env: Env, a: Sys, s: nat, t: Tables, c: ClientState, w: seq<Write>)
    ensures Run(env, During(a, s, t, Session(Reading, true, c, [], []), w), [HangUp(s)])
      == Some(Sys(t, false, Listening, a.sessions[s := Session(Finished, true, c, [], [])], w))
  {
    var y := Session(Finished, true, c, [], []);
    assert a.sessions[s := Session(Reading, true, c, [], [])][s := y] == a.sessions[s := y];
    OneStep(env, During(a, s, t, Session(Reading, true, c, [], []), w), HangUp(s));
  }

  /** What the approval of a stored file writes. */
  lemma ApprovalWritten(env: Env, s: nat, t: Tables, c: ClientState, content: Bytes, opens: bool)
    requires Stored(env, t, c, content)
    ensures Written(env, s, t, Some(StatusMessage(c, Valid)), opens)
      == if opens then [Write(s, env.fs.file(OwnPath(env, c)), content)] else []
  {
    hide FullPath;
  }

  /** The file is stored, its checksum read, the approval served, and the client hangs up. */
  function TransferSteps(s: nat, x: Chance): seq<Step> {
    [Serve(s, x.newKey, x.opens), Deliver(s)] + [Serve(s, x.newKey, x.opens), Deliver(s)] + [HangUp(s)]
  }

  lemma Sent(m: Request)
    ensures Sending([m]) == [Some(m)] && Sending([]) == []
  {}

  lemma TransferRuns(env: Env, a: Sys, s: nat, t: Tables, config: Config, id: Id, x: Chance)
    requires Invertible(env.cipher) && Deliverable(config.file) && id != ZERO
    requires id in t.clients && t.clients[id].aesKey == Some(x.newKey)
    requires config.fileName in t.files ==> Owns(t, id, config.fileName)
    requires Plain(config.fileName) ==> x.opens
    ensures var padded := ZeroPadded(config.file);
      var file := SendFile(id, |padded|, config.fileName, Encrypt(env.cipher, x.newKey, padded));
      var run := Run(env, During(a, s, t, Session(Reading, true, Single.WithKey(config, id), [Some(file)], []), []),
                     TransferSteps(s, x));
      && run.Some?
      && run.value == Sys(run.value.tables, false, Listening,
           a.sessions[s := Session(Finished, true, Single.WithKey(config, id).(phase := Ended), [], [])],
           if x.opens then [Write(s, env.fs.file(FullPath(env.fs, id, config.fileName)), padded)] else [])
      && run.value.tables.clients == t.clients
      && Single.Delivered(env, t, run.value.tables, id, config.fileName, config.file, padded, x.opens)
  {
    hide Encrypt, ZeroPadded, FullPath, FileAndZeros, FileMessage, Handle, During, Run, Written;
    var c, padded, y := Single.WithKey(config, id), ZeroPadded(config.file), Chance(ZERO, x.newKey, x.opens);
    var file, approval := FileMessage(env.cipher, x.newKey, id, config.fileName, config.file), StatusMessage(c, Valid);
    Single.TransferMessages(env, config, id, x.newKey);
    Single.FileIsStored(env, t, config, id, x.newKey, y);
    PaddedFile(config.file);
    var h := Handle(env, t, Some(file), y);
    assert Receive(env, c, h.responses[0]) == (c, [approval]);
    Sent(approval);
    NothingWritten(env, s, t, file, x.opens);
    assert [] + Written(env, s, t, Some(file), x.opens) == [];
    var trip := [Serve(s, x.newKey, x.opens), Deliver(s)];
    var b := During(a, s, t, Session(Reading, true, c, [Some(file)], []), []);
    var b1 := During(a, s, h.tables, Session(Reading, true, c, [Some(approval)], []), []);
    RoundTrip(env, a, s, t, c, file, [], x);
    assert Run(env, b, trip) == Some(b1);
    StoredAnswers(env, h.tables, c, padded, y);
    ApprovalWritten(env, s, h.tables, c, padded, x.opens);
    var h2 := Handle(env, h.tables, Some(approval), y);
    assert h2.responses[0] == Received;
    var ended := c.(phase := Ended);
    assert Receive(env, c, Received) == (ended, []);
    var w := Written(env, s, h.tables, Some(approval), x.opens);
    assert [] + w == w;
    var b2 := During(a, s, h2.tables, Session(Reading, true, ended, [], []), w);
    RoundTrip(env, a, s, h.tables, c, approval, [], x);
    assert Run(env, b1, trip) == Some(b2);
    Closing(env, a, s, h2.tables, ended, w);
    RunAppends(env, b, trip, trip);
    RunAppends(env, b, trip + trip, [HangUp(s)]);
    hide Receive, OwnPath;
  }

  lemma NothingWritten(env: Env, s: nat, t: Tables, m: Request, opens: bool)
    requires !m.CrcStatus?
    ensures Written(env, s, t, Some(m), opens) == []
  {}

  /** From the key exchange on. */
  lemma KeyedRuns(env: Env, a: Sys, s: nat, t: Tables, c: ClientState, config: Config, id: Id, x: Chance)
    requires Invertible(env.cipher) && Deliverable(config.file) && id in t.clients && id != ZERO
    requires config.fileName in t.files ==> t.files[config.fileName].owner == id
    requires Plain(config.fileName) ==> x.opens
    requires env.wrap(config.publicKey, x.newKey).Some? && |config.publicKey| == 160
    requires env.unwrap(config.publicKey, env.wrap(config.publicKey, x.newKey).value) == x.newKey
    requires c == Initial(config, id).(queue := [PublicKey(id, config.name, config.publicKey)])
    ensures var run := Run(env, During(a, s, t, Session(Reading, true, c, [Some(c.queue[0])], []), []),
                           [Serve(s, x.newKey, x.opens), Deliver(s)] + TransferSteps(s, x));
      run.Some? && Finishes(env, a, s, t, config, id, x, run.value)
  {
    var m := PublicKey(id, config.name, config.publicKey);
    KeyServed(env, t, c, config, id, x);
    hide Encrypt, ZeroPadded, FullPath, FileAndZeros, Handle, During, Run, Written, Receive, SetKeys, TransferSteps;
    var t' := SetKeys(t, id, config.publicKey, x.newKey);
    var padded := ZeroPadded(config.file);
    var file := SendFile(id, |padded|, config.fileName, Encrypt(env.cipher, x.newKey, padded));
    NothingWritten(env, s, t, m, x.opens);
    assert [] + Written(env, s, t, Some(m), x.opens) == [];
    Sent(file);
    RoundTrip(env, a, s, t, c, m, [], x);
    TransferRuns(env, a, s, t', config, id, x);
    RunAppends(env, During(a, s, t, Session(Reading, true, c, [Some(m)], []), []),
               [Serve(s, x.newKey, x.opens), Deliver(s)], TransferSteps(s, x));
  }

  lemma KeyServed(env: Env, t: Tables, c: ClientState, config: Config, id: Id, x: Chance)
    requires id in t.clients && env.wrap(config.publicKey, x.newKey).Some? && |config.publicKey| == 160
    requires env.unwrap(config.publicKey, env.wrap(config.publicKey, x.newKey).value) == x.newKey
    requires c == Initial(config, id).(queue := [PublicKey(id, config.name, config.publicKey)])
    ensures var m := PublicKey(id, config.name, config.publicKey);
      var r := KeyReceived(id, env.wrap(config.publicKey, x.newKey).value);
      var padded := ZeroPadded(config.file);
      && Handle(env, t, Some(m), Chance(ZERO, x.newKey, x.opens))
         == Handled(SetKeys(t, id, config.publicKey, x.newKey), [r], Served)
      && Receive(env, c, r) == (Single.WithKey(config, id),
           [SendFile(id, |padded|, config.fileName, Encrypt(env.cipher, x.newKey, padded))])
    ensures var t' := SetKeys(t, id, config.publicKey, x.newKey);
      && t' == t.(clients := t.clients[id := ClientRow(t.clients[id].name, Some(config.publicKey), Some(x.newKey))])
  {
    hide Encrypt, ZeroPadded, FileAndZeros;
    KeyAnswered(env, c, id, env.wrap(config.publicKey, x.newKey).value);
    assert c.queue[1..] == [];
  }

  /** The session is over, the lock is free, nothing is in flight, every other session stands where it
      stood, the client has its keys, the file is delivered, and the record has the one write. */
  predicate Finishes(env: Env, a: Sys, s: nat, t: Tables, config: Config, id: Id, x: Chance, b: Sys)
    requires id in t.clients
  {
    var padded := ZeroPadded(config.file);
    && !b.lock && b.listener == Listening
    && b.sessions == a.sessions[s := Session(Finished, true, Single.WithKey(config, id).(phase := Ended), [], [])]
    && b.writes == (if x.opens then [Write(s, env.fs.file(FullPath(env.fs, id, config.fileName)), padded)] else [])
    && b.tables.clients == t.clients[id := ClientRow(t.clients[id].name, Some(config.publicKey), Some(x.newKey))]
    && Single.Delivered(env, t, b.tables, id, config.fileName, config.file, padded, x.opens)
  }

  /** The steps of a new client's session, and of a registered one's. */
  function NewSteps(s: nat, x: Chance): seq<Step> {
    [Connect(s), Accept(s), Acquire, Spawn] + [Serve(s, x.newKey, x.opens), Insert(s, x.newId), Deliver(s)]
    + ([Serve(s, x.newKey, x.opens), Deliver(s)] + TransferSteps(s, x))
  }

  function RegisteredSteps(s: nat, x: Chance): seq<Step> {
    [Connect(s), Accept(s), Acquire, Spawn] + ([Serve(s, x.newKey, x.opens), Deliver(s)] + TransferSteps(s, x))
  }

  /** There is a run in which a new client, connecting to an idle system, registers, sends its file and
      has it approved and written, after which thread and lock are free again. */
  lemma NewClientRuns(env: Env, a: Sys, s: nat, config: Config, x: Chance)
    requires Init(a) && s in a.sessions && a.sessions[s].client == Initial(config, ZERO)
    requires Invertible(env.cipher) && Single.Admissible(env, a.tables, config, x)
    requires (|config.file| <= 720 || 1008 < |config.file|) && (Plain(config.fileName) ==> x.opens)
    ensures var run := Run(env, a, NewSteps(s, x));
      run.Some? && Finishes(env, a, s, AddClient(a.tables, x.newId, config.name).0, config, x.newId, x, run.value)
  {
    DeliverableSizes(config.file);
    FirstMessage(config, ZERO);
    assert ZERO == seq(16, _ => 0);
    var m0, m1 := Registration(ZERO, config.name), PublicKey(x.newId, config.name, config.publicKey);
    var c0 := Initial(config, ZERO).(queue := [m0]);
    var c1 := Initial(config, x.newId).(queue := [m1]);
    ApprovalAnswered(env, c0, m0, x.newId);
    assert CheckRegistration(a.tables, config.name) == None;
    var t' := AddClient(a.tables, x.newId, config.name).0;
    hide Run, During, Receive, Start, Finishes, TransferSteps, CheckRegistration, Next, Init;
    Opening(env, a, s);
    Sent(m0);
    RegistrationTrip(env, a, s, a.tables, c0, m0, [], x.newId, x);
    Sent(m1);
    KeyedRuns(env, a, s, t', c1, config, x.newId, x);
    var opening := [Connect(s), Accept(s), Acquire, Spawn];
    var inserting := [Serve(s, x.newKey, x.opens), Insert(s, x.newId), Deliver(s)];
    RunAppends(env, a, opening, inserting);
    RunAppends(env, a, opening + inserting, [Serve(s, x.newKey, x.opens), Deliver(s)] + TransferSteps(s, x));
  }

  /** The same for a registered client, which only exchanges a key first. */
  lemma RegisteredClientRuns(env: Env, a: Sys, s: nat, config: Config, id: Id, x: Chance)
    requires Init(a) && s in a.sessions && a.sessions[s].client == Initial(config, id)
    requires Invertible(env.cipher) && Single.Known(env, a.tables, config, id, x)
    requires (|config.file| <= 720 || 1008 < |config.file|) && (Plain(config.fileName) ==> x.opens)
    ensures var run := Run(env, a, RegisteredSteps(s, x));
      run.Some? && Finishes(env, a, s, a.tables, config, id, x, run.value)
  {
    DeliverableSizes(config.file);
    FirstMessage(config, id);
    assert ZERO == seq(16, _ => 0);
    var m := PublicKey(id, config.name, config.publicKey);
    hide Run, During, Receive, Start, Finishes, TransferSteps, Next, Init;
    Opening(env, a, s);
    Sent(m);
    KeyedRuns(env, a, s, a.tables, Initial(config, id).(queue := [m]), config, id, x);
    RunAppends(env, a, [Connect(s), Accept(s), Acquire, Spawn],
               [Serve(s, x.newKey, x.opens), Deliver(s)] + TransferSteps(s, x));
  }

  // ----- a corrupted body -----

  lemma Corruption(env: Env, a: Sys, s: nat, t: Tables, c: ClientState, m: Request, w: seq<Write>, body: Bytes)
    requires m.SendFile?
    ensures Run(env, During(a, s, t, Session(Reading, true, c, [Some(m)], []), w), [Corrupt(s, body)])
      == Some(During(a, s, t, Session(Reading, true, c, [Some(m.(content := body))], []), w))
  {
    var y := Session(Reading, true, c, [Some(m.(content := body))], []);
    assert [Some(m)][1..] == [] && [Some(m.(content := body))] + [] == [Some(m.(content := body))];
    assert a.sessions[s := Session(Reading, true, c, [Some(m)], [])][s := y] == a.sessions[s := y];
    OneStep(env, During(a, s, t, Session(Reading, true, c, [Some(m)], []), w), Corrupt(s, body));
  }

  /** The corrupted body is stored and its checksum announced. */
  lemma CorruptedStored(env: Env, t: Tables, config: Config, id: Id, key: Key, size: nat, body: Bytes, x: Chance)
    requires id in t.clients && t.clients[id].aesKey == Some(key)
    requires config.fileName in t.files ==> t.files[config.fileName].owner == id
    requires (|body| <= 742 || 1024 < |body|) && |body| % 16 == 0
    ensures Decrypt(env.cipher, Some(key), body, size).Some?
    ensures var content := Decrypt(env.cipher, Some(key), body, size).value;
      var h := Handle(env, t, Some(SendFile(id, size, config.fileName, body)), x);
      && h.outcome == Served && h.responses == [FileCrc(id, size, config.fileName, Crc.Crc32(content))]
      && Stored(env, h.tables, Single.WithKey(config, id), content) && h.tables.disk == t.disk
  {
    hide FullPath, TrueCrc;
    DecryptCuts(env.cipher, Some(key), body, size);
    hide Decrypt;
  }

  /** One futile request: the same checksum comes back. */
  lemma FutileTrip(env: Env, a: Sys, s: nat, t: Tables, c: ClientState, content: Bytes, x: Chance)
    requires Stored(env, t, c, content) && c.phase == Rechecking && c.crcAttempts < 3 && x.opens
    requires Crc.Crc32(content) != c.calculatedCrc
    ensures var c' := c.(crcAttempts := c.crcAttempts + 1);
      Run(env, During(a, s, t, Session(Reading, true, c, [Some(StatusMessage(c, Resend))], []), []), Trip(s, x))
      == Some(if c.crcAttempts < 2
              then During(a, s, t, Session(Reading, true, c', [Some(StatusMessage(c, Resend))], []), [])
              else During(a, s, t, Session(Reading, true, c'.(phase := Ended), [Some(StatusMessage(c, Abort))], []), []))
  {
    hide Handle, During, Run, Stored, Written, Next;
    StoredAnswers(env, t, c, content, Chance(ZERO, x.newKey, x.opens));
    MismatchStep(env, c, FileCrc(c.id, |content|, c.config.fileName, Crc.Crc32(content)));
    ResendWritesNothing(env, s, t, c, x.opens);
    Sent(StatusMessage(c, Resend));
    Sent(StatusMessage(c, Abort));
    RoundTrip(env, a, s, t, c, StatusMessage(c, Resend), [], x);
    assert [] + Written(env, s, t, Some(StatusMessage(c, Resend)), x.opens) == [];
  }

  lemma ResendWritesNothing(env: Env, s: nat, t: Tables, c: ClientState, opens: bool)
    ensures Written(env, s, t, Some(StatusMessage(c, Resend)), opens) == []
  {}

  function Trip(s: nat, x: Chance): seq<Step> { [Serve(s, x.newKey, x.opens), Deliver(s)] }

  /** The abort kills the thread, which keeps the lock. */
  lemma AbortKills(env: Env, a: Sys, s: nat, t: Tables, c: ClientState, m: Request, x: Chance)
    requires m.CrcStatus? && m.verdict == Abort && x.opens
    ensures Run(env, During(a, s, t, Session(Reading, true, c, [Some(m)], []), []), [Serve(s, x.newKey, x.opens)])
      == Some(Sys(t, true, Listening, a.sessions[s := Session(Dead, true, c, [], [])], []))
  {
    var y := Session(Dead, true, c, [], []);
    assert [Some(m)][1..] == [];
    var none: seq<Response>, nothing: seq<Write> := [], [];
    assert none + [] == none && nothing + [] == nothing;
    assert Handle(env, t, Some(m), Chance(ZERO, x.newKey, x.opens)) == Handled(t, [], Crashed);
    assert Written(env, s, t, Some(m), x.opens) == [];
    assert a.sessions[s := Session(Reading, true, c, [Some(m)], [])][s := y] == a.sessions[s := y];
    OneStep(env, During(a, s, t, Session(Reading, true, c, [Some(m)], []), []), Serve(s, x.newKey, x.opens));
  }

  /** The first checksum does not match. */
  lemma FirstTrip(env: Env, a: Sys, s: nat, t: Tables, c: ClientState, m: Request, x: Chance)
    requires m.SendFile? && c.phase == Running && c.crcAttempts == 0 && c.queue == []
    requires var h := Handle(env, t, Some(m), Chance(ZERO, x.newKey, x.opens));
      h.outcome == Served && |h.responses| == 1 && h.responses[0].FileCrc? && h.responses[0].checksum != c.calculatedCrc
    ensures var h := Handle(env, t, Some(m), Chance(ZERO, x.newKey, x.opens));
      Run(env, During(a, s, t, Session(Reading, true, c, [Some(m)], []), []), Trip(s, x))
      == Some(During(a, s, h.tables,
                     Session(Reading, true, c.(phase := Rechecking), [Some(StatusMessage(c, Resend))], []), []))
  {
    hide Handle, During, Run, Written, Next;
    FirstMismatch(env, c, Handle(env, t, Some(m), Chance(ZERO, x.newKey, x.opens)).responses[0]);
    NothingWritten(env, s, t, m, x.opens);
    Sent(StatusMessage(c, Resend));
    RoundTrip(env, a, s, t, c, m, [], x);
    assert [] + Written(env, s, t, Some(m), x.opens) == [];
  }

  /** What follows while `k` attempts are used up: a request served and answered each time, and at last
      the abort served. */
  function FutileSteps(s: nat, x: Chance, k: nat): seq<Step>
    requires k <= 3
    decreases 3 - k
  {
    if k == 3 then [Serve(s, x.newKey, x.opens)] else Trip(s, x) + FutileSteps(s, x, k + 1)
  }

  /** The last futile request, and the abort. */
  lemma LastTrip(env: Env, a: Sys, s: nat, t: Tables, c: ClientState, content: Bytes, x: Chance)
    requires Stored(env, t, c, content) && c.phase == Rechecking && c.crcAttempts == 2 && x.opens
    requires Crc.Crc32(content) != c.calculatedCrc
    ensures Run(env, During(a, s, t, Session(Reading, true, c, [Some(StatusMessage(c, Resend))], []), []),
                FutileSteps(s, x, 2))
      == Some(Sys(t, true, Listening,
                  a.sessions[s := Session(Dead, true, c.(crcAttempts := 3, phase := Ended), [], [])], []))
  {
    FutileTrip(env, a, s, t, c, content, x);
    AbortIs(c);
    hide During, Run, Stored, Next, Trip, StatusMessage;
    AbortKills(env, a, s, t, c.(crcAttempts := 3, phase := Ended), StatusMessage(c, Abort), x);
    RunAppends(env, During(a, s, t, Session(Reading, true, c, [Some(StatusMessage(c, Resend))], []), []), Trip(s, x),
               FutileSteps(s, x, 3));
  }

  /** Futile requests and the abort. */
  lemma {:induction false} FutileTrips(env: Env, a: Sys, s: nat, t: Tables, c: ClientState, content: Bytes, x: Chance)
    requires Stored(env, t, c, content) && c.phase == Rechecking && c.crcAttempts < 3 && x.opens
    requires Crc.Crc32(content) != c.calculatedCrc
    ensures Run(env, During(a, s, t, Session(Reading, true, c, [Some(StatusMessage(c, Resend))], []), []),
                FutileSteps(s, x, c.crcAttempts))
      == Some(Sys(t, true, Listening,
                  a.sessions[s := Session(Dead, true, c.(crcAttempts := 3, phase := Ended), [], [])], []))
    decreases 3 - c.crcAttempts
  {
    if c.crcAttempts == 2 {
      hide Run, Stored, During;
      LastTrip(env, a, s, t, c, content, x);
    } else {
      var c1 := c.(crcAttempts := c.crcAttempts + 1);
      StoredFollows(env, t, c, c1, content);
      TranscriptGrows(c, c1, 0, []);
      FutileTrip(env, a, s, t, c, content, x);
      hide During, Run, Stored, Next, Trip, Transcript, StatusMessage;
      FutileTrips(env, a, s, t, c1, content, x);
      RunAppends(env, During(a, s, t, Session(Reading, true, c, [Some(StatusMessage(c, Resend))], []), []), Trip(s, x),
                 FutileSteps(s, x, c.crcAttempts + 1));
    }
  }

  lemma AbortIs(c: ClientState)
    ensures StatusMessage(c, Abort).CrcStatus? && StatusMessage(c, Abort).verdict == Abort
  {}

  /** There is a run for every corruption that leaves whole blocks and shows in the checksum: the wrong
      content is stored, asked for again three times, and given up; nothing is written, and the
      thread dies with the lock. */
  lemma CorruptedRuns(env: Env, a: Sys, s: nat, t: Tables, config: Config, id: Id, size: nat, sent: Bytes, body: Bytes,
                      x: Chance)
    requires id in t.clients && t.clients[id].aesKey == Some(x.newKey) && x.opens
    requires config.fileName in t.files ==> t.files[config.fileName].owner == id
    requires (|body| <= 742 || 1024 < |body|) && |body| % 16 == 0
    requires var r := Decrypt(env.cipher, Some(x.newKey), body, size);
      r.Some? && Crc.Crc32(r.value) != Crc.Crc32(ZeroPadded(config.file))
    ensures var c := Single.WithKey(config, id);
      var m := SendFile(id, size, config.fileName, sent);
      var run := Run(env, During(a, s, t, Session(Reading, true, c, [Some(m)], []), []),
                     [Corrupt(s, body)] + Trip(s, x) + FutileSteps(s, x, 0));
      && run.Some? && run.value.lock && s in run.value.sessions && run.value.sessions[s].pc == Dead
      && run.value.sessions[s].client.phase == Ended
      && run.value.tables.disk == t.disk && run.value.writes == []
  {
    var c, y := Single.WithKey(config, id), Chance(ZERO, x.newKey, x.opens);
    var m := SendFile(id, size, config.fileName, body);
    var content := Decrypt(env.cipher, Some(x.newKey), body, size).value;
    CorruptedStored(env, t, config, id, x.newKey, size, body, y);
    var t' := Handle(env, t, Some(m), y).tables;
    var c1 := c.(phase := Rechecking);
    StoredFollows(env, t', c, c1, content);
    hide During, Run, Stored, Next, Handle, Decrypt, FutileSteps, Trip;
    Corruption(env, a, s, t, c, SendFile(id, size, config.fileName, sent), [], body);
    FirstTrip(env, a, s, t, c, m, x);
    FutileTrips(env, a, s, t', c1, content, x);
    var b := During(a, s, t, Session(Reading, true, c, [Some(SendFile(id, size, config.fileName, sent))], []), []);
    RunAppends(env, b, [Corrupt(s, body)], Trip(s, x));
    RunAppends(env, b, [Corrupt(s, body)] + Trip(s, x), FutileSteps(s, x, 0));
  }

  // ----- what else can happen to a session in the loop -----

  /** A client may close inside a file of more than one packet: its thread receives nothing for ever,
      with the lock. */
  lemma CutRuns(env: Env, a: Sys, s: nat, t: Tables, c: ClientState, m: Request, w: seq<Write>)
    requires m.SendFile? && |m.content| > 1024
    ensures Run(env, During(a, s, t, Session(Reading, true, c, [Some(m)], []), w), [Cut(s)])
      == Some(Sys(t, true, Listening, a.sessions[s := Session(Stuck, true, c.(phase := Ended), [], [])], w))
  {
    var y := Session(Stuck, true, c.(phase := Ended), [], []);
    assert a.sessions[s := Session(Reading, true, c, [Some(m)], [])][s := y] == a.sessions[s := y];
    OneStep(env, During(a, s, t, Session(Reading, true, c, [Some(m)], []), w), Cut(s));
  }

  /** A read may fail at any time, which ends the client, and a client in the undefined state may send
      anything. */
  lemma ClientFails(env: Env, a: Sys, s: nat, t: Tables, x: Session, w: seq<Write>, m: Option<Request>)
    requires x.started
    ensures Run(env, During(a, s, t, x, w), [ReadFails(s)])
      == Some(During(a, s, t, x.(client := x.client.(phase := Ended)), w))
    ensures x.client.phase == Undefined ==>
      Run(env, During(a, s, t, x, w), [Stray(s, m)]) == Some(During(a, s, t, x.(toServer := x.toServer + [m]), w))
  {
    var y, z := x.(client := x.client.(phase := Ended)), x.(toServer := x.toServer + [m]);
    assert a.sessions[s := x][s := y] == a.sessions[s := y] && a.sessions[s := x][s := z] == a.sessions[s := z];
    OneStep(env, During(a, s, t, x, w), ReadFails(s));
    OneStep(env, During(a, s, t, x, w), Stray(s, m));
  }
}
