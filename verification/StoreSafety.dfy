/** The store invariant over whole runs of clients with plain file names: it breaks only when the
    body of a file message is corrupted to something other than whole blocks on its way. */
module StoreSafety {
  import opened Octets
  import opened Blocks
  import opened Protocol
  import opened Payload
  import opened Paths
  import opened Store
  import opened Server
  import opened Client
  import opened System
  import opened Wrappers

  predicate HasKey(t: Tables, id: Id) {
    id in t.clients && t.clients[id].aesKey.Some?
  }

  /** A file message can be decrypted, and a key on its way to the client is in the table. */
  predicate Decryptable(t: Tables, m: Request) {
    m.SendFile? ==> HasKey(t, m.headerId) && |m.content| % 16 == 0
  }

  ghost predicate Keyed(t: Tables, x: Session) {
    && (forall m :: Some(m) in x.toServer ==> Decryptable(t, m))
    && (forall r :: r in x.toClient && r.KeyReceived? ==> HasKey(t, x.client.id))
  }

  ghost predicate KeysOk(a: Sys) {
    forall s :: s in a.sessions && InLoop(a.sessions[s]) ==> Keyed(a.tables, a.sessions[s])
  }

  /** Corruption that leaves whole blocks. */
  predicate WholeBlocks(step: Step) {
    step.Corrupt? ==> |step.body| % 16 == 0
  }

  // ----- keys stay -----

  lemma HandleKeepsKeys(env: Env, t: Tables, m: Option<Request>, x: Chance, id: Id)
    requires HasKey(t, id)
    ensures HasKey(Handle(env, t, m, x).tables, id)
  {
    hide Decrypt, StoreFile, Verify;
    match m {
      case Some(SendFile(i, size, name, body)) =>
        StoreKeepsClients(env.fs, t, i, name,
          if i in t.clients then Decrypt(env.cipher, t.clients[i].aesKey, body, size) else None);
      case Some(CrcStatus(Valid, headerId, i, name)) =>
        VerifyKeepsClients(env.fs, t, i, name, x.opens);
      case _ =>
    }
  }

  /** A key is announced only once it is in the table. */
  lemma AnnouncedKeys(env: Env, t: Tables, m: Option<Request>, x: Chance, r: Response)
    requires r in Answers(Handle(env, t, m, x)) && r.KeyReceived?
    ensures m.Some? && m.value.PublicKey? && HasKey(Handle(env, t, m, x).tables, m.value.headerId)
  {
    hide Decrypt, StoreFile, Verify, NameTaken, FullPath;
  }

  lemma InsertKeepsKeys(t: Tables, name: Bytes, newId: Id, id: Id)
    requires HasKey(t, id)
    ensures HasKey(InsertRegistration(t, name, newId).tables, id)
  {}

  // ----- every step -----

  /** Replacing one session, tables growing only in keys. */
  lemma PutKeeps(a: Sys, a': Sys, s: nat, x: Session)
    requires KeysOk(a) && a'.sessions == a.sessions[s := x]
    requires forall id :: HasKey(a.tables, id) ==> HasKey(a'.tables, id)
    requires InLoop(x) ==> Keyed(a'.tables, x)
    ensures KeysOk(a')
  {
    forall u | u in a'.sessions && InLoop(a'.sessions[u]) ensures Keyed(a'.tables, a'.sessions[u]) {
      if u != s {
        assert Keyed(a.tables, a.sessions[u]);
      }
    }
  }

  /** What serving the one waiting request leaves of its session. */
  lemma ServedSession(env: Env, a: Sys, s: nat, newKey: Key, opens: bool)
    requires Next(env, a, Serve(s, newKey, opens)).Some? && a.sessions[s].toClient == []
    requires a.sessions[s].toServer[1..] == [] && a.sessions[s].toServer[0].Some?
    ensures var b, m := Next(env, a, Serve(s, newKey, opens)).value, a.sessions[s].toServer[0];
      var h := Handle(env, a.tables, m, Chance(ZERO, newKey, opens));
      && s in b.sessions && b.sessions == a.sessions[s := b.sessions[s]]
      && b.sessions[s].toServer == [] && b.sessions[s].client == a.sessions[s].client
      && (m.value.Registration? ==> b.tables == a.tables && forall r :: r in b.sessions[s].toClient ==> !r.KeyReceived?)
      && (!m.value.Registration? ==> b.tables == h.tables && b.sessions[s].toClient == Answers(h))
  {
    hide Handle, Written, Answers, CheckRegistration;
    var m := a.sessions[s].toServer[0];
    CheckedIsRefused(a.tables, if m.value.Registration? then m.value.name else []);
    assert [] + Answers(Handle(env, a.tables, m, Chance(ZERO, newKey, opens)))
        == Answers(Handle(env, a.tables, m, Chance(ZERO, newKey, opens)));
    assert [] + Answers(Refuse(a.tables)) == Answers(Refuse(a.tables));
  }

  lemma ServeKeeps(env: Env, a: Sys, s: nat, newKey: Key, opens: bool)
    requires Inv(env, a) && KeysOk(a) && Next(env, a, Serve(s, newKey, opens)).Some?
    ensures KeysOk(Next(env, a, Serve(s, newKey, opens)).value)
  {
    hide KeysOk, Talk, Handle, Answers, HasKey, Mutex, WriteOk, BeforeThread, ServeOne;
    var x := a.sessions[s];
    assert SessionOk(env, a.tables, x);
    OneAsked(env, a.tables, x);
    var a', m := Next(env, a, Serve(s, newKey, opens)).value, x.toServer[0].value;
    ServedSession(env, a, s, newKey, opens);
    if !m.Registration? {
      AskedOf(env, a.tables, x);
      ServedKeys(env, a.tables, x.client, m, Chance(ZERO, newKey, opens));
    }
    PutKeeps(a, a', s, a'.sessions[s]);
  }

  lemma AskedOf(env: Env, t: Tables, x: Session)
    requires Talk(env, t, x) && x.pc.Reading? && x.toClient == [] && x.toServer != []
    ensures x.toServer[0].Some? && Asked(env, t, x.client, x.toServer[0].value)
  {}

  lemma CheckedIsRefused(t: Tables, name: Bytes)
    ensures CheckRegistration(t, name).Some? ==> CheckRegistration(t, name).value == Refuse(t)
    ensures forall r :: r in Answers(Refuse(t)) ==> !r.KeyReceived?
  {}

  lemma ServedKeys(env: Env, t: Tables, c: ClientState, m: Request, x: Chance)
    requires Asked(env, t, c, m) && !m.Registration?
    ensures var h := Handle(env, t, Some(m), x);
      && (forall id :: HasKey(t, id) ==> HasKey(h.tables, id))
      && (forall r :: r in Answers(h) && r.KeyReceived? ==> HasKey(h.tables, c.id))
  {
    hide Handle, Answers, HasKey, Vouched;
    var h := Handle(env, t, Some(m), x);
    forall id | HasKey(t, id) ensures HasKey(h.tables, id) {
      HandleKeepsKeys(env, t, Some(m), x, id);
    }
    forall r | r in Answers(h) && r.KeyReceived? ensures HasKey(h.tables, c.id) {
      AnnouncedKeys(env, t, Some(m), x, r);
    }
  }

  lemma InsertKeeps(env: Env, a: Sys, s: nat, newId: Id)
    requires Inv(env, a) && KeysOk(a) && Next(env, a, Insert(s, newId)).Some?
    ensures KeysOk(Next(env, a, Insert(s, newId)).value)
  {
    hide TrueCrc, Vouched, HasKey;
    var a' := Next(env, a, Insert(s, newId)).value;
    assert SessionOk(env, a.tables, a.sessions[s]);
    forall id | HasKey(a.tables, id) ensures HasKey(a'.tables, id) {
      InsertKeepsKeys(a.tables, a.sessions[s].pc.name, newId, id);
    }
    PutKeeps(a, a', s, a'.sessions[s]);
  }

  /** The client sends a file only when it reads a key, and in whole blocks. */
  lemma FileFollowsKey(env: Env, t: Tables, c: ClientState, r: Response, m: Request)
    requires Answered(env, t, c, r) && m in Receive(env, c, r).1 && m.SendFile?
    ensures r.KeyReceived? && m.headerId == Receive(env, c, r).0.id == c.id && |m.content| % 16 == 0
  {
    hide TrueCrc, ZeroPadded, Vouched;
    PaddedIsWhole(|ZeroPadded(c.config.file)|);
  }

  lemma PaddedIsWhole(n: nat)
    ensures (n + 16 - n % 16) % 16 == 0
  {}

  lemma DeliverKeeps(env: Env, a: Sys, s: nat)
    requires Inv(env, a) && KeysOk(a) && Next(env, a, Deliver(s)).Some?
    ensures KeysOk(Next(env, a, Deliver(s)).value)
  {
    hide TrueCrc, Vouched, Receive, HasKey;
    var a', x := Next(env, a, Deliver(s)).value, a.sessions[s];
    assert SessionOk(env, a.tables, x);
    if InLoop(x) {
      var x' := a'.sessions[s];
      var (c, out) := Receive(env, x.client, x.toClient[0]);
      assert x'.toServer == Sending(out) && x'.toClient == [];
      forall m | Some(m) in x'.toServer ensures Decryptable(a.tables, m) {
        assert m in out;
        if m.SendFile? {
          FileFollowsKey(env, a.tables, x.client, x.toClient[0], m);
        }
      }
    }
    PutKeeps(a, a', s, a'.sessions[s]);
  }

  lemma OtherKeeps(env: Env, a: Sys, step: Step)
    requires Inv(env, a) && KeysOk(a) && Next(env, a, step).Some? && WholeBlocks(step)
    requires step.Connect? || step.HangUp? || step.Cut? || step.ReadFails? || step.Corrupt? || step.Stray?
    ensures KeysOk(Next(env, a, step).value)
  {
    hide TrueCrc, Vouched, HasKey, Start;
    var a', s := Next(env, a, step).value, step.s;
    assert SessionOk(env, a.tables, a.sessions[s]);
    PutKeeps(a, a', s, a'.sessions[s]);
  }

  lemma ListenerKeeps(env: Env, a: Sys, step: Step)
    requires Inv(env, a) && KeysOk(a) && Next(env, a, step).Some?
    requires step.Accept? || step.Acquire? || step.Spawn?
    ensures KeysOk(Next(env, a, step).value)
  {
    hide TrueCrc, Vouched, HasKey;
    if step.Spawn? {
      var a', s := Next(env, a, step).value, a.listener.s;
      assert SessionOk(env, a.tables, a.sessions[s]);
      PutKeeps(a, a', s, a'.sessions[s]);
    }
  }

  lemma KeysKept(env: Env, a: Sys, step: Step)
    requires Inv(env, a) && KeysOk(a) && Next(env, a, step).Some? && WholeBlocks(step)
    ensures KeysOk(Next(env, a, step).value)
  {
    hide Next, Inv, KeysOk;
    match step
    case Serve(s, newKey, opens) => ServeKeeps(env, a, s, newKey, opens);
    case Insert(s, newId) => InsertKeeps(env, a, s, newId);
    case Deliver(s) => DeliverKeeps(env, a, s);
    case Accept(_) => ListenerKeeps(env, a, step);
    case Acquire => ListenerKeeps(env, a, step);
    case Spawn => ListenerKeeps(env, a, step);
    case _ => OtherKeeps(env, a, step);
  }

  // ----- plain names -----

  /** Every client was told to send a file with a plain name, and every row has one. */
  ghost predicate PlainNames(a: Sys) {
    PlainRows(a.tables) && forall s :: s in a.sessions ==> Plain(a.sessions[s].client.config.fileName)
  }

  lemma HandleKeepsRows(env: Env, t: Tables, m: Option<Request>, x: Chance)
    requires PlainRows(t) && (m.Some? && m.value.SendFile? ==> Plain(m.value.fileName))
    ensures PlainRows(Handle(env, t, m, x).tables)
  {
    hide Plain, Decrypt, FullPath;
  }

  /** What a step leaves of the sessions and of the tables. */
  lemma StepShape(env: Env, a: Sys, step: Step)
    requires Next(env, a, step).Some?
    ensures var b := Next(env, a, step).value;
      && (step.Accept? || step.Acquire? ==> b.sessions == a.sessions)
      && (step.Spawn? ==> b.sessions == a.sessions[a.listener.s := a.sessions[a.listener.s].(pc := Reading)])
      && (!step.Accept? && !step.Acquire? && !step.Spawn? ==>
          step.s in b.sessions && b.sessions == a.sessions[step.s := b.sessions[step.s]])
      && (!step.Serve? && !step.Insert? ==> b.tables == a.tables)
  {
    hide Handle, Receive, Start, CheckRegistration, InsertRegistration, Written, Answers;
  }

  lemma ConfigStays(env: Env, a: Sys, step: Step)
    requires Next(env, a, step).Some?
    ensures var b := Next(env, a, step).value;
      b.sessions.Keys == a.sessions.Keys
      && forall s :: s in a.sessions ==> b.sessions[s].client.config == a.sessions[s].client.config
  {
    StepShape(env, a, step);
    if !step.Accept? && !step.Acquire? && !step.Spawn? {
      OwnConfigStays(env, a, step);
    }
    hide Next;
  }

  lemma OwnConfigStays(env: Env, a: Sys, step: Step)
    requires Next(env, a, step).Some? && !step.Accept? && !step.Acquire? && !step.Spawn?
    ensures var b := Next(env, a, step).value;
      step.s in a.sessions && step.s in b.sessions && b.sessions[step.s].client.config == a.sessions[step.s].client.config
  {
    hide Handle, Receive, Start, CheckRegistration, InsertRegistration, Written, Answers;
    match step {
      case Connect(s) => StartKeeps(a.sessions[s].client);
      case Deliver(s) => ReceiveKeeps(env, a.sessions[s].client, a.sessions[s].toClient[0]);
      case _ =>
    }
  }

  lemma PlainKept(env: Env, a: Sys, step: Step)
    requires Inv(env, a) && PlainNames(a) && Next(env, a, step).Some?
    ensures PlainNames(Next(env, a, step).value)
  {
    ConfigStays(env, a, step);
    StepShape(env, a, step);
    match step {
      case Serve(s, newKey, opens) => ServeKeepsRows(env, a, s, newKey, opens);
      case Insert(s, newId) => InsertKeepsRows(env, a, s, newId);
      case _ =>
    }
    hide Next, Inv, Plain;
  }

  lemma InsertKeepsRows(env: Env, a: Sys, s: nat, newId: Id)
    requires PlainRows(a.tables) && Next(env, a, Insert(s, newId)).Some?
    ensures PlainRows(Next(env, a, Insert(s, newId)).value.tables)
  {
    hide Plain;
  }

  lemma ServeKeepsRows(env: Env, a: Sys, s: nat, newKey: Key, opens: bool)
    requires Inv(env, a) && PlainNames(a) && Next(env, a, Serve(s, newKey, opens)).Some?
    ensures PlainRows(Next(env, a, Serve(s, newKey, opens)).value.tables)
  {
    hide Handle, Plain, PlainRows, Mutex, WriteOk, BeforeThread, Talk, CheckRegistration, Written, Answers;
    var x := a.sessions[s];
    assert SessionOk(env, a.tables, x);
    OneAsked(env, a.tables, x);
    AskedOf(env, a.tables, x);
    HandleKeepsRows(env, a.tables, x.toServer[0], Chance(ZERO, newKey, opens));
    CheckedIsRefused(a.tables, if x.toServer[0].value.Registration? then x.toServer[0].value.name else []);
  }

  // ----- the store -----

  lemma StoreKept(env: Env, a: Sys, step: Step)
    requires Inv(env, a) && KeysOk(a) && PlainNames(a) && PlainApart(env.fs)
    requires StoreOk(env.fs, a.tables) && Next(env, a, step).Some?
    ensures StoreOk(env.fs, Next(env, a, step).value.tables)
  {
    hide TrueCrc, Handle, CheckRegistration, Written, Answers, StoreOk, Start, Receive, PlainApart, Plain;
    match step {
      case Serve(s, newKey, opens) =>
        ServeStore(env, a, s, newKey, opens);
      case Insert(s, newId) =>
        RowsFollow(env.fs, a.tables, Next(env, a, step).value.tables);
      case _ =>
    }
  }

  /** The request a live session serves is harmless. */
  lemma ServeStore(env: Env, a: Sys, s: nat, newKey: Key, opens: bool)
    requires Inv(env, a) && KeysOk(a) && PlainNames(a) && PlainApart(env.fs)
    requires StoreOk(env.fs, a.tables) && Next(env, a, Serve(s, newKey, opens)).Some?
    ensures StoreOk(env.fs, Next(env, a, Serve(s, newKey, opens)).value.tables)
  {
    hide Handle, CheckRegistration, Written, Answers, StoreOk, PlainApart, Plain, Mutex, WriteOk, HasKey, Harmless, Talk;
    var x := a.sessions[s];
    assert SessionOk(env, a.tables, x) && Keyed(a.tables, x);
    OneAsked(env, a.tables, x);
    AskedOf(env, a.tables, x);
    var m := x.toServer[0];
    assert m in x.toServer && m == Some(m.value);
    LiveHarmless(env, a.tables, x.client, m.value, opens);
    HandleInvariant(env, a.tables, m, Chance(ZERO, newKey, opens));
    CheckedIsRefused(a.tables, if m.value.Registration? then m.value.name else []);
  }

  lemma LiveHarmless(env: Env, t: Tables, c: ClientState, m: Request, opens: bool)
    requires Asked(env, t, c, m) && Decryptable(t, m) && Opens(Some(m), opens)
    requires PlainRows(t) && PlainApart(env.fs) && Plain(c.config.fileName)
    ensures Harmless(env, t, Some(m), opens)
  {
    hide PlainRows, PlainApart, Plain, Replaceable, Approvable;
    PlainHarmless(env, t, Some(m));
  }

  lemma {:induction false} RunKeepsStore(env: Env, a: Sys, steps: seq<Step>)
    requires Inv(env, a) && KeysOk(a) && PlainNames(a) && PlainApart(env.fs)
    requires StoreOk(env.fs, a.tables) && Run(env, a, steps).Some?
    requires forall step :: step in steps ==> WholeBlocks(step)
    ensures StoreOk(env.fs, Run(env, a, steps).value.tables)
    decreases |steps|
  {
    hide Next, Inv, KeysOk, StoreOk, PlainNames, PlainApart;
    if steps != [] {
      var step := steps[0];
      assert step in steps && forall x :: x in steps[1..] ==> x in steps;
      InvKept(env, a, step);
      KeysKept(env, a, step);
      PlainKept(env, a, step);
      StoreKept(env, a, step);
      RunKeepsStore(env, Next(env, a, step).value, steps[1..]);
    }
  }

  /** In every run of any number of clients with plain file names, however the steps interleave and
      whatever whole blocks of file bodies are corrupted on the way, each file row agrees with its
      dictionary entry, the checksum is that of the content, and a verified content is what is on
      disk. */
  lemma StoreOkInEveryRun(env: Env, a: Sys, steps: seq<Step>)
    requires Init(a) && PlainNames(a) && PlainApart(env.fs) && StoreOk(env.fs, a.tables) && Run(env, a, steps).Some?
    requires forall step :: step in steps ==> WholeBlocks(step)
    ensures StoreOk(env.fs, Run(env, a, steps).value.tables)
  {
    InitHolds(env, a);
    RunKeepsStore(env, a, steps);
  }
}
