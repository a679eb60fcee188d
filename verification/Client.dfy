/** The client's half of the transfer, ClientLogic.cpp. */
module Client {
  import opened Octets
  import opened Blocks
  import opened Protocol
  import opened Payload
  import opened Paths
  import opened Server
  import opened Store
  import opened Wrappers
  import Crc

  const NUM_OF_ATTEMPTS := 3

  /** `Rechecking` is the inside of the checksum loop; `Undefined` is what follows the use of an
      empty queue's front. */
  datatype Phase = Running | Rechecking | Ended | Undefined

  /** What the client was configured with. */
  datatype Config = Config(name: Bytes, publicKey: Bytes, fileName: Bytes, file: Bytes)

  datatype ClientState = ClientState(
    config: Config,
    id: Id,
    queue: seq<Request>,
    attempts: nat,
    calculatedCrc: bv32,
    crcAttempts: nat,
    phase: Phase)

  function Initial(config: Config, id: Id): ClientState {
    ClientState(config, id, [], NUM_OF_ATTEMPTS, 0, 0, Running)
  }

  /** The checksum of the file as it is sent. */
  function TrueCrc(config: Config): bv32 { Crc.Crc32(ZeroPadded(config.file)) }

  // ----- what each step does -----

  type Reaction = (ClientState, seq<Request>)

  /** `AddMessageToQueue` and `SendNextMessage`: it is the front of the queue that is sent. */
  function Enqueue(c: ClientState, m: Request): Reaction {
    var queue := c.queue + [m];
    (c.(queue := queue, attempts := NUM_OF_ATTEMPTS), [queue[0]])
  }

  function Popped(c: ClientState): ClientState {
    if c.queue == [] then c else c.(queue := c.queue[1..])
  }

  function RegistrationMessage(config: Config): Request { Registration(ZERO, config.name) }

  function PublicKeyMessage(c: ClientState): Request { PublicKey(c.id, c.config.name, c.config.publicKey) }

  function StatusMessage(c: ClientState, verdict: Verdict): Request {
    CrcStatus(verdict, c.id, c.id, c.config.fileName)
  }

  /** The first message of a session: an unregistered client has no id yet. */
  function Start(c: ClientState): Reaction {
    if c.id == ZERO then Enqueue(c, RegistrationMessage(c.config)) else Enqueue(c, PublicKeyMessage(c))
  }

  function OnRegistered(c: ClientState, id: Id): Reaction {
    if c.queue == [] then (c.(phase := Undefined), [])
    else
      var c' := Popped(c).(id := if c.id == ZERO then id else c.id);
      Enqueue(c', PublicKeyMessage(c'))
  }

  function OnRegistrationFailed(c: ClientState): Reaction {
    if c.queue == [] then (c.(phase := Undefined), [])
    else if c.attempts > 0 then (c.(attempts := c.attempts - 1), [c.queue[0]])
    else (Popped(c).(phase := Ended), [])
  }

  /** The key arrives: the file is padded, hashed, encrypted and sent past the queue. */
  function OnKey(env: Env, c: ClientState, wrapped: Bytes): Reaction {
    if c.queue == [] then (c.(phase := Undefined), [])
    else
      var key := env.unwrap(c.config.publicKey, wrapped);
      (Popped(c).(calculatedCrc := TrueCrc(c.config)),
       [FileMessage(env.cipher, key, c.id, c.config.fileName, c.config.file)])
  }

  /** Leaving the checksum loop with its attempts used up. */
  function GiveUp(c: ClientState): Reaction { (c.(phase := Ended), [StatusMessage(c, Abort)]) }

  /** The first checksum. Popping an empty queue is taken to leave it empty. */
  function OnChecksum(c: ClientState, checksum: bv32): Reaction {
    var c' := Popped(c);
    if checksum == c.calculatedCrc then (c', [StatusMessage(c, Valid)])
    else if c.crcAttempts < NUM_OF_ATTEMPTS then (c'.(phase := Rechecking), [StatusMessage(c, Resend)])
    else GiveUp(c')
  }

  /** A message read inside the loop: only a checksum message counts as an attempt. */
  function OnRecheck(c: ClientState, r: Response): Reaction {
    if !r.FileCrc? then (c, [StatusMessage(c, Resend)])
    else if r.checksum == c.calculatedCrc then (c.(phase := Running), [StatusMessage(c, Valid)])
    else
      var c' := c.(crcAttempts := c.crcAttempts + 1);
      if c'.crcAttempts < NUM_OF_ATTEMPTS then (c', [StatusMessage(c, Resend)]) else GiveUp(c')
  }

  function Receive(env: Env, c: ClientState, r: Response): Reaction {
    match c.phase
    case Running => (
      match r
      case Registered(id) => OnRegistered(c, id)
      case RegistrationFailed => OnRegistrationFailed(c)
      case KeyReceived(_, wrapped) => OnKey(env, c, wrapped)
      case FileCrc(_, _, _, checksum) => OnChecksum(c, checksum)
      case Received => (Popped(c).(phase := Ended), []))
    case Rechecking => OnRecheck(c, r)
    case Ended => (c, [])
    case Undefined => (c, [])
  }

  /** All responses in turn. */
  function ReceiveAll(env: Env, c: ClientState, rs: seq<Response>): Reaction
    decreases |rs|
  {
    if rs == [] then (c, [])
    else
      var (c1, out1) := Receive(env, c, rs[0]);
      var (c2, out2) := ReceiveAll(env, c1, rs[1..]);
      (c2, out1 + out2)
  }

  // ----- the object -----

  class ClientLogic {
    const env: Env
    const config: Config
    var id: Id
    var messageQueue: seq<Request>
    var numOfAttempts: nat
    var calculatedCrc: bv32
    var crcAttempts: nat
    var phase: Phase

    /** What the channel has carried, and what it will still deliver before it closes. */
    var sent: seq<Request>
    var inbox: seq<Response>

    constructor (env: Env, config: Config, id: Id, inbox: seq<Response>)
      ensures this.env == env && State() == Initial(config, id) && sent == [] && this.inbox == inbox
    {
      this.env, this.config, this.id := env, config, id;
      messageQueue, numOfAttempts, calculatedCrc, crcAttempts, phase := [], NUM_OF_ATTEMPTS, 0, 0, Running;
      sent, this.inbox := [], inbox;
    }

    function State(): ClientState
      reads this
    {
      ClientState(config, id, messageQueue, numOfAttempts, calculatedCrc, crcAttempts, phase)
    }

    twostate predicate Did(reaction: Reaction)
      reads this
    {
      State() == reaction.0 && sent == old(sent) + reaction.1 && inbox == old(inbox)
    }

    method AddMessageToQueue(m: Request)
      modifies this
      ensures Did(Enqueue(old(State()), m))
    {
      messageQueue := messageQueue + [m];
      numOfAttempts := NUM_OF_ATTEMPTS;
      sent := sent + [messageQueue[0]];
    }

    method HandleRegistrationApproved(newId: Id)
      modifies this
      ensures Did(OnRegistered(old(State()), newId))
    {
      if messageQueue == [] {
        phase := Undefined;
        return;
      }
      messageQueue := messageQueue[1..];
      if id == ZERO {
        id := newId;
      }
      AddMessageToQueue(PublicKey(id, config.name, config.publicKey));
    }

    method HandleRegistrationFailed()
      modifies this
      ensures Did(OnRegistrationFailed(old(State())))
    {
      if messageQueue == [] {
        phase := Undefined;
        return;
      }
      if numOfAttempts > 0 {
        numOfAttempts := numOfAttempts - 1;
        sent := sent + [messageQueue[0]];
      } else {
        messageQueue := messageQueue[1..];
        phase := Ended;
      }
    }

    method HandleSymmetricKey(wrapped: Bytes)
      modifies this
      ensures Did(OnKey(env, old(State()), wrapped))
    {
      if messageQueue == [] {
        phase := Undefined;
        return;
      }
      messageQueue := messageQueue[1..];
      var key := env.unwrap(config.publicKey, wrapped);
      var buffer := ReadFileWithPadding(config.file);
      calculatedCrc := Crc.Crc32(buffer);
      sent := sent + [SendFile(id, |buffer|, config.fileName, Encrypt(env.cipher, key, buffer))];
    }

    /** One turn of the checksum loop. */
    method Recheck(r: Response)
      requires phase == Rechecking && crcAttempts < NUM_OF_ATTEMPTS
      modifies this
      ensures Did(OnRecheck(old(State()), r))
    {
      if !r.FileCrc? {
        sent := sent + [CrcStatus(Resend, id, id, config.fileName)];
      } else if r.checksum == calculatedCrc {
        sent := sent + [CrcStatus(Valid, id, id, config.fileName)];
        phase := Running;
      } else {
        crcAttempts := crcAttempts + 1;
        if crcAttempts == NUM_OF_ATTEMPTS {
          sent := sent + [CrcStatus(Abort, id, id, config.fileName)];
          phase := Ended;
        } else {
          sent := sent + [CrcStatus(Resend, id, id, config.fileName)];
        }
      }
    }

    /** The checksum handler with its loop: it reads on until a checksum matches, the attempts are
        used up, or nothing more arrives, in which case the loop never ends. */
    method HandleMessageReceivedWithCrc(checksum: bv32) returns (ghost n: nat)
      requires phase == Running
      modifies this
      ensures n <= |old(inbox)| && inbox == old(inbox)[n..]
      ensures ReceiveAll(env, OnChecksum(old(State()), checksum).0, old(inbox)[..n]).0 == State()
      ensures sent == old(sent) + OnChecksum(old(State()), checksum).1
                   + ReceiveAll(env, OnChecksum(old(State()), checksum).0, old(inbox)[..n]).1
      ensures phase == Rechecking ==> inbox == []
    {
      hide ReceiveAll;
      ghost var first := OnChecksum(old(State()), checksum);
      n := 0;
      ReceiveNothing(env, first.0);
      if messageQueue != [] {
        messageQueue := messageQueue[1..];
      }
      assert old(inbox)[..0] == [];
      if checksum == calculatedCrc {
        sent := sent + [CrcStatus(Valid, id, id, config.fileName)];
        return;
      }
      if crcAttempts < NUM_OF_ATTEMPTS {
        phase := Rechecking;
        sent := sent + [CrcStatus(Resend, id, id, config.fileName)];
        while phase == Rechecking && inbox != []
          invariant n <= |old(inbox)| && inbox == old(inbox)[n..]
          invariant phase == Rechecking ==> crcAttempts < NUM_OF_ATTEMPTS
          invariant phase in {Rechecking, Running, Ended}
          invariant ReceiveAll(env, first.0, old(inbox)[..n]).0 == State()
          invariant sent == old(sent) + first.1 + ReceiveAll(env, first.0, old(inbox)[..n]).1
          decreases |inbox|
        {
          var r := inbox[0];
          inbox := inbox[1..];
          Recheck(r);
          ReceiveOneMore(env, first.0, old(inbox)[..n], r);
          assert old(inbox)[..n + 1] == old(inbox)[..n] + [r];
          n := n + 1;
        }
      } else {
        sent := sent + [CrcStatus(Abort, id, id, config.fileName)];
        phase := Ended;
      }
    }
  }

  lemma {:induction false} ReceiveInParts(env: Env, c: ClientState, a: seq<Response>, b: seq<Response>)
    ensures var (c1, out1) := ReceiveAll(env, c, a);
            var (c2, out2) := ReceiveAll(env, c1, b);
            ReceiveAll(env, c, a + b) == (c2, out1 + out2)
    decreases |a|
  {
    if a == [] {
      assert a + b == b;
      assert [] + ReceiveAll(env, c, b).1 == ReceiveAll(env, c, b).1;
    } else {
      assert (a + b)[1..] == a[1..] + b;
      var (c0, out0) := Receive(env, c, a[0]);
      ReceiveInParts(env, c0, a[1..], b);
      var (c1, out1) := ReceiveAll(env, c0, a[1..]);
      assert out0 + (out1 + ReceiveAll(env, c1, b).1) == (out0 + out1) + ReceiveAll(env, c1, b).1;
    }
  }

  lemma ReceiveOneMore(env: Env, c: ClientState, rs: seq<Response>, r: Response)
    ensures var (c1, out1) := ReceiveAll(env, c, rs);
            var (c2, out2) := Receive(env, c1, r);
            ReceiveAll(env, c, rs + [r]) == (c2, out1 + out2)
  {
    ReceiveInParts(env, c, rs, [r]);
    var (c1, _) := ReceiveAll(env, c, rs);
    var (c2, out2) := Receive(env, c1, r);
    assert [r][1..] == [];
    assert ReceiveAll(env, c2, []) == (c2, []);
    assert out2 + [] == out2;
  }

  // ----- single messages -----

  /** What a client sends first: an unregistered one its name, under an id of zeros, a registered one
      its public key, under its own id. */
  lemma FirstMessage(config: Config, id: Id)
    ensures var (c, out) := Start(Initial(config, id));
      && c == Initial(config, id).(queue := out)
      && out == if id == seq(16, _ => 0) then [Registration(seq(16, _ => 0), config.name)]
                else [PublicKey(id, config.name, config.publicKey)]
  {
    assert ZERO == seq(16, _ => 0);
  }

  /** An approval sets an id that is not set, and the public key goes out under it. */
  lemma ApprovalAnswered(env: Env, c: ClientState, m: Request, newId: Id)
    requires c.phase == Running && c.queue == [m]
    ensures var id := if c.id == seq(16, _ => 0) then newId else c.id;
      var next := PublicKey(id, c.config.name, c.config.publicKey);
      Receive(env, c, Registered(newId)) == (c.(id := id, queue := [next], attempts := 3), [next])
  {
    assert ZERO == seq(16, _ => 0);
    assert c.queue[1..] == [];
    var next := PublicKey(if c.id == ZERO then newId else c.id, c.config.name, c.config.publicKey);
    assert [] + [next] == [next];
  }

  /** Inside the checksum loop any other message is answered with a request to resend, and counts for
      nothing. */
  lemma OtherCodeRechecked(env: Env, c: ClientState, r: Response)
    requires c.phase == Rechecking && !r.FileCrc?
    ensures Receive(env, c, r) == (c, [CrcStatus(Resend, c.id, c.id, c.config.fileName)])
  {}

  /** The key is answered with the padded file under the unwrapped key, and the client keeps the
      padded file's checksum. */
  lemma KeyAnswered(env: Env, c: ClientState, id: Id, wrapped: Bytes)
    requires c.phase == Running && c.queue != []
    ensures var (c', out) := Receive(env, c, KeyReceived(id, wrapped));
      var padded, key := ZeroPadded(c.config.file), env.unwrap(c.config.publicKey, wrapped);
      && FileAndZeros(c.config.file, padded)
      && out == [SendFile(c.id, |padded|, c.config.fileName, Encrypt(env.cipher, key, padded))]
      && c' == c.(queue := c.queue[1..], calculatedCrc := Crc.Crc32(padded))
  {
    hide Encrypt, FileAndZeros;
    PaddedFile(c.config.file);
  }

  /** A failure sends the front of the queue again, or with no attempts left gives it up and ends. */
  lemma FailureAnswered(env: Env, c: ClientState)
    requires c.phase == Running && c.queue != []
    ensures Receive(env, c, RegistrationFailed) ==
      if c.attempts > 0 then (c.(attempts := c.attempts - 1), [c.queue[0]])
      else (c.(queue := c.queue[1..], phase := Ended), [])
  {}

  /** Id, failure or key with nothing in the queue: the front that does not exist is used. */
  lemma EmptyQueueUsed(env: Env, c: ClientState, r: Response)
    requires c.phase == Running && c.queue == [] && (r.Registered? || r.RegistrationFailed? || r.KeyReceived?)
    ensures Receive(env, c, r) == (c.(phase := Undefined), [])
  {}

  /** The first checksum: approved, or the loop begins, or with three mismatches counted the abort. */
  lemma ChecksumAnswered(env: Env, c: ClientState, r: Response)
    requires c.phase == Running && r.FileCrc?
    ensures var c' := c.(queue := if c.queue == [] then [] else c.queue[1..]);
      var (id, name) := (c.id, c.config.fileName);
      Receive(env, c, r) ==
        if r.checksum == c.calculatedCrc then (c', [CrcStatus(Valid, id, id, name)])
        else if c.crcAttempts < 3 then (c'.(phase := Rechecking), [CrcStatus(Resend, id, id, name)])
        else (c'.(phase := Ended), [CrcStatus(Abort, id, id, name)])
  {}

  /** The end: an approval, a failure beyond the third, and nothing after it. */
  lemma EndsExactly(env: Env, c: ClientState, r: Response)
    requires c.phase == Running && c.queue != []
    ensures Receive(env, c, r).0.phase == Ended <==>
      r == Received || (r == RegistrationFailed && c.attempts == 0)
      || (r.FileCrc? && r.checksum != c.calculatedCrc && c.crcAttempts >= 3)
  {
    hide FileMessage, TrueCrc;
  }

  // ----- retries -----

  function Min(a: nat, b: nat): nat { if a < b then a else b }

  function Failures(n: nat): seq<Response> { Repeat(RegistrationFailed, n) }

  /** A message that keeps failing is sent as often as there are attempts left; one more failure
      ends the client. */
  lemma {:induction false} RetryBudget(env: Env, c: ClientState, m: Request, n: nat)
    requires c.phase == Running && c.queue == [m]
    ensures var (c', out) := ReceiveAll(env, c, Failures(n));
            && out == Repeat(m, Min(n, c.attempts))
            && (c'.phase == Ended <==> n > c.attempts)
            && (n <= c.attempts ==> c' == c.(attempts := c.attempts - n))
    decreases n
  {
    if n > 0 {
      assert Failures(n)[1..] == Failures(n - 1);
      var (c1, out1) := Receive(env, c, RegistrationFailed);
      if c.attempts > 0 {
        RetryBudget(env, c1, m, n - 1);
      } else {
        EndedStays(env, c1, Failures(n - 1));
      }
    }
  }

  /** A first message that fails again and again goes out three more times. */
  lemma FreshRetries(env: Env, config: Config, id: Id, n: nat)
    ensures var (c, out) := Start(Initial(config, id));
      var (c', again) := ReceiveAll(env, c, Failures(n));
      && |out| == 1 && again == Repeat(out[0], if n < 3 then n else 3) && (c'.phase == Ended <==> n > 3)
  {
    hide ReceiveAll, Failures, Repeat;
    var (c, out) := Start(Initial(config, id));
    RetryBudget(env, c, out[0], n);
  }

  lemma {:induction false} EndedStays(env: Env, c: ClientState, rs: seq<Response>)
    requires c.phase == Ended || c.phase == Undefined
    ensures ReceiveAll(env, c, rs) == (c, [])
    decreases |rs|
  {
    if rs != [] {
      EndedStays(env, c, rs[1..]);
      assert Receive(env, c, rs[0]) == (c, []);
      assert ReceiveAll(env, c, rs[1..]).1 + [] == [];
    }
  }

  // ----- the verdict -----

  /** `k` requests to resend, then the verdicts. */
  function Transcript(c: ClientState, k: nat, verdicts: seq<Request>): seq<Request> {
    Repeat(StatusMessage(c, Resend), k) + verdicts
  }

  /** Checksum messages with given checksums. */
  predicate Mismatching(rs: seq<Response>, own: bv32) {
    forall r :: r in rs ==> r.FileCrc? && r.checksum != own
  }

  lemma RepeatFirst(m: Request, n: nat)
    ensures [m] + Repeat(m, n) == Repeat(m, n + 1)
  {}

  /** Inside the loop with `left` attempts to go: fewer mismatches are answered with as many
      requests, and the last one with the abort that ends the client. */
  lemma {:induction false} RecheckMismatches(env: Env, c: ClientState, rs: seq<Response>)
    requires c.phase == Rechecking && c.crcAttempts < NUM_OF_ATTEMPTS
    requires Mismatching(rs, c.calculatedCrc) && |rs| <= NUM_OF_ATTEMPTS - c.crcAttempts
    ensures var (c', out) := ReceiveAll(env, c, rs);
            if |rs| < NUM_OF_ATTEMPTS - c.crcAttempts
            then c' == c.(crcAttempts := c.crcAttempts + |rs|) && out == Transcript(c, |rs|, [])
            else c'.phase == Ended && out == Transcript(c, |rs| - 1, [StatusMessage(c, Abort)])
    decreases |rs|
  {
    hide Transcript;
    TranscriptOfNone(c, []);
    if rs != [] {
      MismatchStep(env, c, rs[0]);
      assert rs[0] in rs && forall r :: r in rs[1..] ==> r in rs;
      hide Receive;
      if c.crcAttempts + 1 < NUM_OF_ATTEMPTS {
        var c1 := c.(crcAttempts := c.crcAttempts + 1);
        RecheckMismatches(env, c1, rs[1..]);
        TranscriptGrows(c, c1, |rs| - 1, []);
        if |rs| == NUM_OF_ATTEMPTS - c.crcAttempts {
          TranscriptGrows(c, c1, |rs| - 2, [StatusMessage(c, Abort)]);
        }
      } else {
        LastMismatch(env, c, rs);
      }
    }
  }

  lemma MismatchStep(env: Env, c: ClientState, r: Response)
    requires c.phase == Rechecking && c.crcAttempts < NUM_OF_ATTEMPTS && r.FileCrc? && r.checksum != c.calculatedCrc
    ensures var c1 := c.(crcAttempts := c.crcAttempts + 1);
      Receive(env, c, r) ==
        if c1.crcAttempts < NUM_OF_ATTEMPTS then (c1, [StatusMessage(c, Resend)])
        else (c1.(phase := Ended), [StatusMessage(c, Abort)])
  {}

  lemma LastMismatch(env: Env, c: ClientState, rs: seq<Response>)
    requires |rs| == 1 && Receive(env, c, rs[0]).0.phase == Ended && Receive(env, c, rs[0]).1 == [StatusMessage(c, Abort)]
    ensures ReceiveAll(env, c, rs).0.phase == Ended
      && ReceiveAll(env, c, rs).1 == Transcript(c, 0, [StatusMessage(c, Abort)])
  {
    hide Receive;
    assert rs[1..] == [];
    TranscriptOfNone(c, [StatusMessage(c, Abort)]);
  }

  /** A transcript depends on the client's id and file name only. */
  lemma TranscriptGrows(c: ClientState, c': ClientState, k: nat, verdicts: seq<Request>)
    requires c'.id == c.id && c'.config == c.config
    ensures forall v :: StatusMessage(c', v) == StatusMessage(c, v)
    ensures [StatusMessage(c, Resend)] + Transcript(c', k, verdicts) == Transcript(c, k + 1, verdicts)
  {
    RepeatFirst(StatusMessage(c, Resend), k);
  }

  /** Whatever the checksums: at most three mismatches and then a match give as many requests to
      resend and the approval; a fourth mismatch gives three requests and the abort. Never both. */
  lemma VerdictTranscript(env: Env, c: ClientState, wrong: seq<Response>, last: Response)
    requires c.phase == Running && c.crcAttempts == 0
    requires Mismatching(wrong, c.calculatedCrc) && |wrong| <= 3 && last.FileCrc?
    requires last.checksum != c.calculatedCrc ==> |wrong| == 3
    ensures var (c', out) := ReceiveAll(env, c, wrong + [last]);
            var name := c.config.fileName;
            && |out| == |wrong| + 1
            && (forall i :: 0 <= i < |wrong| ==> out[i] == CrcStatus(Resend, c.id, c.id, name))
            && if last.checksum == c.calculatedCrc
               then c'.phase == Running && out[|wrong|] == CrcStatus(Valid, c.id, c.id, name)
               else c'.phase == Ended && out[|wrong|] == CrcStatus(Abort, c.id, c.id, name)
  {
    hide ReceiveAll, Repeat;
    Verdicts(env, c, wrong, last);
    RepeatIs(CrcStatus(Resend, c.id, c.id, c.config.fileName), |wrong|);
  }

  lemma RepeatIs(m: Request, n: nat)
    ensures |Repeat(m, n)| == n && forall i :: 0 <= i < n ==> Repeat(m, n)[i] == m
  {}

  lemma Verdicts(env: Env, c: ClientState, wrong: seq<Response>, last: Response)
    requires c.phase == Running && c.crcAttempts == 0
    requires Mismatching(wrong, c.calculatedCrc) && |wrong| <= NUM_OF_ATTEMPTS && last.FileCrc?
    requires last.checksum != c.calculatedCrc ==> |wrong| == NUM_OF_ATTEMPTS
    ensures var (c', out) := ReceiveAll(env, c, wrong + [last]);
            if last.checksum == c.calculatedCrc
            then c'.phase == Running && out == Transcript(c, |wrong|, [StatusMessage(c, Valid)])
            else c'.phase == Ended && out == Transcript(c, NUM_OF_ATTEMPTS, [StatusMessage(c, Abort)])
  {
    hide ReceiveAll, Transcript, Repeat;
    ReceiveOneMore(env, c, wrong, last);
    if wrong == [] {
      ReceiveNothing(env, c);
      TranscriptOfNone(c, [StatusMessage(c, Valid)]);
    } else {
      AllMismatches(env, c, wrong);
      TranscriptAppends(c, |wrong|, StatusMessage(c, Valid));
      TranscriptAppends(c, |wrong|, StatusMessage(c, Abort));
    }
  }

  lemma ReceiveNothing(env: Env, c: ClientState)
    ensures ReceiveAll(env, c, []) == (c, [])
  {}

  lemma TranscriptOfNone(c: ClientState, verdicts: seq<Request>)
    ensures Transcript(c, 0, verdicts) == verdicts
  {}

  lemma TranscriptAppends(c: ClientState, k: nat, verdict: Request)
    ensures Transcript(c, k, []) + [verdict] == Transcript(c, k, [verdict])
  {}

  /** Up to three mismatches from the start are all answered with requests to resend. */
  lemma AllMismatches(env: Env, c: ClientState, wrong: seq<Response>)
    requires c.phase == Running && c.crcAttempts == 0 && wrong != []
    requires Mismatching(wrong, c.calculatedCrc) && |wrong| <= NUM_OF_ATTEMPTS
    ensures ReceiveAll(env, c, wrong)
         == (Popped(c).(phase := Rechecking, crcAttempts := |wrong| - 1), Transcript(c, |wrong|, []))
  {
    hide Transcript;
    var tail := wrong[1..];
    assert wrong[0] in wrong && forall r :: r in tail ==> r in wrong;
    var c1 := Popped(c).(phase := Rechecking);
    FirstMismatch(env, c, wrong[0]);
    hide Receive;
    RecheckMismatches(env, c1, tail);
    TranscriptGrows(c, c1, |tail|, []);
  }

  lemma FirstMismatch(env: Env, c: ClientState, r: Response)
    requires c.phase == Running && c.crcAttempts == 0 && r.FileCrc? && r.checksum != c.calculatedCrc
    ensures Receive(env, c, r) == (Popped(c).(phase := Rechecking), [StatusMessage(c, Resend)])
  {}

  // ----- the checksum phase against this server -----

  /** Client and server talk until one has no more to say on the checksum; every request of the
      client is handled at once. The result is the final tables and all requests sent. */
  function Converse(env: Env, t: Tables, c: ClientState, r: Response, x: Chance): (Tables, seq<Request>)
    requires r.FileCrc? && (c.phase == Running || c.phase == Rechecking)
    decreases if c.phase == Running then 1 else 0, NUM_OF_ATTEMPTS - c.crcAttempts
  {
    var (c', out) := Receive(env, c, r);
    var h := Handle(env, t, Some(out[0]), x);
    if c'.phase == Rechecking && |h.responses| == 1 && h.responses[0].FileCrc? && h.outcome == Served then
      var (t'', rest) := Converse(env, h.tables, c', h.responses[0], x);
      (t'', out + rest)
    else (h.tables, out)
  }

  function OwnPath(env: Env, c: ClientState): Bytes { FullPath(env.fs, c.id, c.config.fileName) }

  /** The sender's file is stored with this content. */
  predicate Stored(env: Env, t: Tables, c: ClientState, content: Bytes) {
    && c.id in t.clients && Owns(t, c.id, c.config.fileName)
    && OwnPath(env, c) in t.dict && t.dict[OwnPath(env, c)].content == Some(content)
  }

  /** The disk after an approval of the client's file. */
  function Approved(env: Env, t: Tables, c: ClientState, content: Bytes, opens: bool): map<Bytes, Bytes> {
    if opens then t.disk[env.fs.file(OwnPath(env, c)) := content] else t.disk
  }

  lemma StoredAnswers(env: Env, t: Tables, c: ClientState, content: Bytes, x: Chance)
    requires Stored(env, t, c, content)
    ensures Handle(env, t, Some(StatusMessage(c, Resend)), x)
         == Handled(t, [FileCrc(c.id, |content|, c.config.fileName, Crc.Crc32(content))], Served)
    ensures Handle(env, t, Some(StatusMessage(c, Abort)), x) == Handled(t, [], Crashed)
    ensures var h := Handle(env, t, Some(StatusMessage(c, Valid)), x);
            && h.responses == [Received] && h.outcome == Served
            && h.tables.disk == Approved(env, t, c, content, x.opens)
            && h.tables.clients == t.clients && h.tables.files == t.files[c.config.fileName := FileRow(c.id, true)]
            && Stored(env, h.tables, c, content)
  {
    hide FullPath;
  }

  lemma StoredFollows(env: Env, t: Tables, c: ClientState, c': ClientState, content: Bytes)
    requires c'.id == c.id && c'.config == c.config
    ensures Stored(env, t, c', content) <==> Stored(env, t, c, content)
  {}

  /** The conversation with a server that holds the file, one message at a time. */
  lemma ConverseStep(env: Env, t: Tables, c: ClientState, r: Response, content: Bytes, x: Chance)
    requires r.FileCrc? && (c.phase == Running || c.phase == Rechecking) && c.crcAttempts < NUM_OF_ATTEMPTS
    requires Stored(env, t, c, content) && r.checksum != c.calculatedCrc
    ensures var (c', out) := Receive(env, c, r);
            var r' := FileCrc(c.id, |content|, c.config.fileName, Crc.Crc32(content));
            if c'.phase == Rechecking
            then
              var (t'', rest) := Converse(env, t, c', r', x);
              out == [StatusMessage(c, Resend)] && Converse(env, t, c, r, x) == (t'', out + rest)
            else out == [StatusMessage(c, Abort)] && Converse(env, t, c, r, x) == (t, out)
  {
    hide Handle, Stored;
    StoredAnswers(env, t, c, content, x);
  }

  lemma {:induction false} ConverseRechecking(env: Env, t: Tables, c: ClientState, r: Response, content: Bytes,
      x: Chance)
    requires r.FileCrc? && c.phase == Rechecking && c.crcAttempts < NUM_OF_ATTEMPTS
    requires Stored(env, t, c, content) && r.checksum == Crc.Crc32(content) != c.calculatedCrc
    ensures Converse(env, t, c, r, x)
         == (t, Transcript(c, NUM_OF_ATTEMPTS - 1 - c.crcAttempts, [StatusMessage(c, Abort)]))
    decreases NUM_OF_ATTEMPTS - c.crcAttempts
  {
    hide Handle, Converse, Transcript, Receive, Stored;
    ConverseStep(env, t, c, r, content, x);
    MismatchStep(env, c, r);
    var c' := c.(crcAttempts := c.crcAttempts + 1);
    var k := NUM_OF_ATTEMPTS - 1 - c.crcAttempts;
    StoredFollows(env, t, c, c', content);
    if k > 0 {
      ConverseRechecking(env, t, c', FileCrc(c.id, |content|, c.config.fileName, Crc.Crc32(content)), content, x);
      TranscriptGrows(c, c', k - 1, [StatusMessage(c, Abort)]);
    } else {
      TranscriptOfNone(c, [StatusMessage(c, Abort)]);
    }
  }

  /** Once the file is stored there are two outcomes: approval at once, which writes the stored
      content if the file opens, or three futile requests and the abort, which change nothing. A
      request to resend leaves content and checksum as they are, so no third outcome exists. */
  lemma ChecksumPhase(env: Env, t: Tables, c: ClientState, r: Response, content: Bytes, x: Chance)
    requires c.phase == Running && c.crcAttempts == 0
    requires Stored(env, t, c, content) && r.FileCrc? && r.checksum == Crc.Crc32(content)
    ensures var (t', out) := Converse(env, t, c, r, x);
            if Crc.Crc32(content) == c.calculatedCrc
            then out == [StatusMessage(c, Valid)] && t'.disk == Approved(env, t, c, content, x.opens)
            else out == Transcript(c, 3, [StatusMessage(c, Abort)]) && t' == t
  {
    hide Handle, Converse, Transcript;
    if Crc.Crc32(content) != c.calculatedCrc {
      Futile(env, t, c, r, content, x);
    } else {
      ApprovedAtOnce(env, t, c, r, content, x);
    }
  }

  lemma ApprovedAtOnce(env: Env, t: Tables, c: ClientState, r: Response, content: Bytes, x: Chance)
    requires c.phase == Running && Stored(env, t, c, content)
    requires r.FileCrc? && r.checksum == Crc.Crc32(content) == c.calculatedCrc
    ensures Converse(env, t, c, r, x).1 == [StatusMessage(c, Valid)]
    ensures Converse(env, t, c, r, x).0.disk == Approved(env, t, c, content, x.opens)
  {
    hide Handle, Stored, Approved;
    StoredAnswers(env, t, c, content, x);
  }

  lemma Futile(env: Env, t: Tables, c: ClientState, r: Response, content: Bytes, x: Chance)
    requires c.phase == Running && c.crcAttempts == 0 && Stored(env, t, c, content)
    requires r.FileCrc? && r.checksum == Crc.Crc32(content) != c.calculatedCrc
    ensures Converse(env, t, c, r, x).0 == t
    ensures Converse(env, t, c, r, x).1 == Transcript(c, 3, [StatusMessage(c, Abort)])
  {
    hide Handle, Converse, Transcript, Receive, StatusMessage, Stored;
    FirstMismatch(env, c, r);
    ConverseStep(env, t, c, r, content, x);
    var c' := Popped(c).(phase := Rechecking);
    StoredFollows(env, t, c, c', content);
    ConverseRechecking(env, t, c', FileCrc(c.id, |content|, c.config.fileName, Crc.Crc32(content)), content, x);
    TranscriptGrows(c, c', 2, [StatusMessage(c, Abort)]);
  }
}
