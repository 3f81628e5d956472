/** The challenge and token exchange between the fingerprint client and the
    Gatekeeper provider over two anonymous pipes, as a state machine over every
    interleaving, every fragmentation of reads and writes and every failure. */
module Authorization {
  import opened Bytes

  const CHALLENGE_SIZE: nat := 8
  const HAT_SIZE: nat := 69

  /** `fpc_build_info`: rounds count from 1. */
  datatype Client =
    | Preparing(round: nat)                                  // sensor work before fetching a challenge
    | Sending(round: nat, challenge: u64, sent: nat)         // writing the challenge
    | Receiving(round: nat, challenge: u64, hat: seq<byte>)  // reading the token
    | Checking(round: nat, challenge: u64, hat: seq<byte>)   // whole token read
    | Finishing                                              // after the last authorization
    | ClientExit(ok: bool)

  /** `qsee_gatekeeper --verify` and `--verify-enrol`. */
  datatype Provider =
    | Starting                                               // reading the handle and the credential
    | Reading(round: nat, got: seq<byte>)                    // reading a challenge
    | Opening(challenge: u64)                                // attaching to the TA, first round only
    | Verifying(round: nat, challenge: u64)                  // asking the TA to sign
    | Replying(round: nat, hat: seq<byte>, sent: nat)        // writing the token
    | ProviderExit(ok: bool)

  datatype World = World(
    client: Client, provider: Provider,
    challengePipe: seq<byte>, hatPipe: seq<byte>,
    fetched: seq<u64>,          // challenges the client has fetched from the fingerprint TA
    signed: seq<seq<byte>>,     // tokens the provider has obtained from Gatekeeper
    submitted: seq<seq<byte>>,  // tokens the client has passed to the fingerprint TA
    accepted: nat)              // how many of those were accepted

  datatype Action =
    | Fetch(challenge: u64) | Send(n: nat) | Receive(n: nat) | Submit(accept: bool) | Finish | ClientPeerGone | ClientFail
    | Begin | Read(n: nat) | Open | Sign(rest: seq<byte>) | Reply(n: nat) | ProviderPeerGone | ProviderFail

  function Initial(): World {
    World(Preparing(1), Starting, [], [], [], [], [], 0)
  }

  /** A packed token: version 0, the challenge, and what the TA adds. */
  function Token(challenge: u64, rest: seq<byte>): seq<byte> {
    [0] + Le64Bytes(challenge) + rest
  }

  predicate Carries(hat: seq<byte>, challenge: u64) {
    |hat| == HAT_SIZE && hat[0] == 0 && Le64(hat, 1) == challenge
  }

  // ----- steps

  predicate Enabled(w: World, a: Action, capacity: nat) {
    match a
    case Fetch(challenge) => w.client.Preparing? && challenge != 0
    case Send(n) =>
      w.client.Sending? && !w.provider.ProviderExit?
      && 0 < n <= CHALLENGE_SIZE - w.client.sent && |w.challengePipe| + n <= capacity
    case Receive(n) => w.client.Receiving? && 0 < n <= |w.hatPipe| && n <= HAT_SIZE - |w.client.hat|
    case Submit(_) => w.client.Checking?
    case Finish => w.client.Finishing?
    case ClientPeerGone =>
      w.provider.ProviderExit? && (w.client.Sending? || (w.client.Receiving? && w.hatPipe == []))
    case ClientFail => !w.client.ClientExit?
    case Begin => w.provider.Starting?
    case Read(n) => w.provider.Reading? && 0 < n <= |w.challengePipe| && n <= CHALLENGE_SIZE - |w.provider.got|
    case Open => w.provider.Opening?
    case Sign(rest) => w.provider.Verifying? && |rest| == HAT_SIZE - 1 - CHALLENGE_SIZE
    case Reply(n) =>
      w.provider.Replying? && !w.client.ClientExit?
      && w.provider.sent <= |w.provider.hat| && 0 < n <= |w.provider.hat| - w.provider.sent && |w.hatPipe| + n <= capacity
    case ProviderPeerGone =>
      w.client.ClientExit? && (w.provider.Replying? || (w.provider.Reading? && w.challengePipe == []))
    case ProviderFail => !w.provider.ProviderExit?
  }

  function Apply(w: World, a: Action, rounds: nat, capacity: nat): World
    requires Enabled(w, a, capacity)
  {
    ApplyEach(w, a, rounds, rounds, capacity)
  }

  /** A step where each program counts rounds for itself. */
  function ApplyEach(w: World, a: Action, clientRounds: nat, providerRounds: nat, capacity: nat): World
    requires Enabled(w, a, capacity)
  {
    match a
    case Fetch(challenge) => w.(client := Sending(w.client.round, challenge, 0), fetched := w.fetched + [challenge])
    case Send(n) => SendStep(w, n)
    case Receive(n) =>
      var hat := w.client.hat + w.hatPipe[..n];
      w.(client := if |hat| == HAT_SIZE then Checking(w.client.round, w.client.challenge, hat)
                   else Receiving(w.client.round, w.client.challenge, hat),
         hatPipe := w.hatPipe[n..])
    case Submit(accept) => SubmitStep(w, accept, clientRounds)
    case Finish => w.(client := ClientExit(true))
    case ClientPeerGone => w.(client := ClientExit(false))
    case ClientFail => w.(client := ClientExit(false))
    case Begin => w.(provider := Reading(1, []))
    case Read(n) => ReadStep(w, n)
    case Open => w.(provider := Verifying(1, w.provider.challenge))
    case Sign(rest) =>
      var hat := Token(w.provider.challenge, rest);
      w.(provider := Replying(w.provider.round, hat, 0), signed := w.signed + [hat])
    case Reply(n) => ReplyStep(w, n, providerRounds)
    case ProviderPeerGone => w.(provider := ProviderExit(false))
    case ProviderFail => w.(provider := ProviderExit(false))
  }

  function SendStep(w: World, n: nat): World
    requires w.client.Sending? && n <= CHALLENGE_SIZE - w.client.sent
  {
    var sent := w.client.sent + n;
    w.(client := if sent == CHALLENGE_SIZE then Receiving(w.client.round, w.client.challenge, []) else w.client.(sent := sent),
       challengePipe := w.challengePipe + Le64Bytes(w.client.challenge)[w.client.sent..sent])
  }

  /** The version and the challenge are checked before the token reaches the TA. */
  function SubmitStep(w: World, accept: bool, rounds: nat): World
    requires w.client.Checking?
  {
    if !Carries(w.client.hat, w.client.challenge) then w.(client := ClientExit(false))
    else
      w.(client := if !accept then ClientExit(false)
                   else if w.client.round < rounds then Preparing(w.client.round + 1) else Finishing,
         submitted := w.submitted + [w.client.hat],
         accepted := if accept then w.accepted + 1 else w.accepted)
  }

  function ReadStep(w: World, n: nat): World
    requires w.provider.Reading? && n <= |w.challengePipe|
  {
    var got := w.provider.got + w.challengePipe[..n];
    w.(provider := if |got| != CHALLENGE_SIZE then w.provider.(got := got)
                   else if Le64(got, 0) == 0 then ProviderExit(false)
                   else if w.provider.round == 1 then Opening(Le64(got, 0))
                   else Verifying(w.provider.round, Le64(got, 0)),
       challengePipe := w.challengePipe[n..])
  }

  function ReplyStep(w: World, n: nat, rounds: nat): World
    requires w.provider.Replying? && w.provider.sent + n <= |w.provider.hat|
  {
    var sent := w.provider.sent + n;
    w.(provider := if sent < |w.provider.hat| then w.provider.(sent := sent)
                   else if w.provider.round < rounds then Reading(w.provider.round + 1, [])
                   else ProviderExit(true),
       hatPipe := w.hatPipe + w.provider.hat[w.provider.sent..sent])
  }

  // ----- the invariant

  predicate Prefix(flow: seq<byte>, message: seq<byte>) {
    |flow| <= |message| && flow == message[..|flow|]
  }

  /** Round `i + 1` of each log belongs to challenge `i + 1`. */
  predicate Logs(w: World, rounds: nat) {
    && |w.signed| <= |w.fetched| <= |w.signed| + 1 && |w.fetched| <= rounds
    && |w.submitted| <= |w.signed| && w.accepted <= |w.submitted| <= w.accepted + 1
    && w.submitted == w.signed[..|w.submitted|]
    && (forall i :: 0 <= i < |w.fetched| ==> w.fetched[i] != 0)
    && (forall i :: 0 <= i < |w.signed| ==> Carries(w.signed[i], w.fetched[i]))
  }

  /** The challenge bytes the provider of round `r` has or will find: those of
      challenge `r` that were written, and never any of another challenge. */
  predicate ChallengeFlow(w: World, r: nat, flow: seq<byte>)
    requires 1 <= r
  {
    if |w.fetched| < r then flow == []
    else
      && Prefix(flow, Le64Bytes(w.fetched[r - 1]))
      && (w.client.Sending? ==> |flow| == w.client.sent)
      && (w.client.Receiving? ==> |flow| == CHALLENGE_SIZE)
  }

  predicate ProviderOk(w: World, rounds: nat) {
    match w.provider
    case Starting => w.signed == [] && |w.fetched| <= 1 && 1 <= rounds && ChallengeFlow(w, 1, w.challengePipe)
    case Reading(r, got) =>
      1 <= r <= rounds && |w.signed| == r - 1 && |got| < CHALLENGE_SIZE && ChallengeFlow(w, r, got + w.challengePipe)
    case Opening(challenge) =>
      1 <= rounds && w.signed == [] && |w.fetched| == 1 && challenge == w.fetched[0] && w.challengePipe == []
    case Verifying(r, challenge) =>
      1 <= r <= rounds && |w.signed| == r - 1 && |w.fetched| == r && challenge == w.fetched[r - 1] && w.challengePipe == []
    case Replying(r, hat, sent) =>
      1 <= r <= rounds && |w.signed| == |w.fetched| == r && hat == w.signed[r - 1] && sent < HAT_SIZE && w.challengePipe == []
    case ProviderExit(ok) => ok ==> |w.signed| == rounds
  }

  /** The token bytes the client of round `r` has or will find. */
  predicate TokenFlow(w: World, r: nat, flow: seq<byte>)
    requires 1 <= r
  {
    if |w.signed| < r then flow == []
    else
      && Prefix(flow, w.signed[r - 1])
      && (w.provider.Replying? ==> |flow| == w.provider.sent)
      && (w.provider.Reading? || w.provider == ProviderExit(true) ==> |flow| == HAT_SIZE)
  }

  predicate ClientOk(w: World, rounds: nat) {
    match w.client
    case Preparing(r) =>
      1 <= r <= rounds && |w.fetched| == |w.signed| == |w.submitted| == w.accepted == r - 1 && w.hatPipe == []
      && !w.provider.Replying?
    case Sending(r, challenge, sent) =>
      1 <= r <= rounds && |w.fetched| == r && |w.signed| == |w.submitted| == w.accepted == r - 1
      && challenge == w.fetched[r - 1] && sent < CHALLENGE_SIZE && w.hatPipe == []
      && (w.provider.Starting? || w.provider.Reading? || w.provider.ProviderExit?)
    case Receiving(r, challenge, hat) =>
      1 <= r <= rounds && |w.fetched| == r && |w.submitted| == w.accepted == r - 1
      && challenge == w.fetched[r - 1] && |hat| < HAT_SIZE && TokenFlow(w, r, hat + w.hatPipe)
    case Checking(r, challenge, hat) =>
      1 <= r <= rounds && |w.fetched| == |w.signed| == r && |w.submitted| == w.accepted == r - 1
      && challenge == w.fetched[r - 1] && hat == w.signed[r - 1] && w.hatPipe == [] && !w.provider.Replying?
    case Finishing =>
      |w.fetched| == |w.signed| == |w.submitted| == w.accepted == rounds && w.hatPipe == [] && !w.provider.Replying?
    case ClientExit(ok) => ok ==> |w.fetched| == |w.signed| == |w.submitted| == w.accepted == rounds
  }

  predicate Inv(w: World, rounds: nat) {
    Logs(w, rounds) && ProviderOk(w, rounds) && ClientOk(w, rounds)
  }

  lemma TokenCarries(challenge: u64, rest: seq<byte>)
    requires |rest| == HAT_SIZE - 1 - CHALLENGE_SIZE
    ensures Carries(Token(challenge, rest), challenge)
  {
    hide Le64Bytes;
    var b, hat := Le64Bytes(challenge), Token(challenge, rest);
    Le64RoundTrip(challenge);
    assert forall i :: 0 <= i < 8 ==> hat[1 + i] == b[i];
    Le64Shift(b, hat);
  }

  lemma Le64Shift(b: seq<byte>, hat: seq<byte>)
    requires |b| == 8 && |hat| >= 9 && forall i :: 0 <= i < 8 ==> hat[1 + i] == b[i]
    ensures Le64(hat, 1) == Le64(b, 0)
  {
    assert hat[1] == b[0] && hat[2] == b[1] && hat[3] == b[2] && hat[4] == b[3];
    assert hat[5] == b[4] && hat[6] == b[5] && hat[7] == b[6] && hat[8] == b[7];
  }

  lemma ClientStepInv(w: World, a: Action, rounds: nat, capacity: nat)
    requires Inv(w, rounds) && Enabled(w, a, capacity)
    requires a.Finish? || a.ClientPeerGone? || a.ClientFail?
    ensures Inv(Apply(w, a, rounds, capacity), rounds)
  {
    hide Le64Bytes, Le64, Carries, Prefix;
  }

  lemma FetchInv(w: World, a: Action, rounds: nat, capacity: nat)
    requires Inv(w, rounds) && Enabled(w, a, capacity) && a.Fetch?
    ensures Inv(Apply(w, a, rounds, capacity), rounds)
  {
    hide Le64Bytes, Le64, Carries;
  }

  lemma SubmitInv(w: World, a: Action, rounds: nat, capacity: nat)
    requires Inv(w, rounds) && Enabled(w, a, capacity) && a.Submit?
    ensures Inv(Apply(w, a, rounds, capacity), rounds)
  {
    hide Le64Bytes, Le64, Prefix;
  }

  lemma SendInv(w: World, n: nat, rounds: nat, capacity: nat)
    requires Inv(w, rounds) && Enabled(w, Send(n), capacity)
    ensures Inv(SendStep(w, n), rounds)
  {
    hide Le64Bytes, Le64, Carries, Prefix, Logs;
    var message := Le64Bytes(w.client.challenge);
    var v := SendStep(w, n);
    LogsOnly(w, v, rounds);
    if w.provider.Starting? {
      PrefixGrows(w.challengePipe, message, w.client.sent, n);
    } else if w.provider.Reading? {
      var got := w.provider.got;
      PrefixGrows(got + w.challengePipe, message, w.client.sent, n);
      assert got + v.challengePipe == (got + w.challengePipe) + message[w.client.sent..w.client.sent + n];
    }
    EmptyPrefix();
  }

  lemma LogsOnly(w: World, v: World, rounds: nat)
    requires Logs(w, rounds)
    requires v.fetched == w.fetched && v.signed == w.signed && v.submitted == w.submitted && v.accepted == w.accepted
    ensures Logs(v, rounds) && |w.signed| <= |w.fetched|
  {
  }

  lemma PrefixGrows(flow: seq<byte>, message: seq<byte>, sent: nat, n: nat)
    requires Prefix(flow, message) && |flow| == sent && sent + n <= |message|
    ensures Prefix(flow + message[sent..sent + n], message)
  {
    assert message[..sent] + message[sent..sent + n] == message[..sent + n];
  }

  lemma EmptyPrefix()
    ensures forall message :: Prefix([], message)
  {
  }

  lemma ReceiveInv(w: World, n: nat, rounds: nat, capacity: nat)
    requires Inv(w, rounds) && Enabled(w, Receive(n), capacity)
    ensures Inv(Apply(w, Receive(n), rounds, capacity), rounds)
  {
    hide Le64Bytes, Le64;
    var hat := w.client.hat + w.hatPipe[..n];
    assert hat + w.hatPipe[n..] == w.client.hat + w.hatPipe;
    if |hat| == HAT_SIZE {
      var flow := hat + w.hatPipe[n..];
      assert |flow| == HAT_SIZE && flow == w.signed[w.client.round - 1][..HAT_SIZE];
      assert w.hatPipe[n..] == [];
    }
  }

  lemma ReadInv(w: World, n: nat, rounds: nat, capacity: nat)
    requires Inv(w, rounds) && Enabled(w, Read(n), capacity)
    ensures Inv(ReadStep(w, n), rounds)
  {
    hide Le64Bytes, Le64, Carries;
    var got := w.provider.got + w.challengePipe[..n];
    assert got + w.challengePipe[n..] == w.provider.got + w.challengePipe;
    if |got| == CHALLENGE_SIZE {
      var r := w.provider.round;
      var flow, message := got + w.challengePipe[n..], Le64Bytes(w.fetched[r - 1]);
      assert |flow| == CHALLENGE_SIZE && flow == message[..CHALLENGE_SIZE] == message;
      assert got == message && w.challengePipe[n..] == [];
      Le64RoundTrip(w.fetched[r - 1]);
    }
  }

  lemma ReplyInv(w: World, n: nat, rounds: nat, capacity: nat)
    requires Inv(w, rounds) && Enabled(w, Reply(n), capacity)
    ensures Inv(ReplyStep(w, n, rounds), rounds)
  {
    hide Le64Bytes, Le64, Carries, Logs;
    var hat := w.provider.hat;
    var v := ReplyStep(w, n, rounds);
    LogsOnly(w, v, rounds);
    SignedLength(w, rounds);
    if w.client.Receiving? {
      assert w.client.hat + v.hatPipe == (w.client.hat + w.hatPipe) + hat[w.provider.sent..w.provider.sent + n];
      assert hat[..w.provider.sent] + hat[w.provider.sent..w.provider.sent + n] == hat[..w.provider.sent + n];
    }
  }

  lemma SignInv(w: World, rest: seq<byte>, rounds: nat, capacity: nat)
    requires Inv(w, rounds) && Enabled(w, Sign(rest), capacity)
    ensures Inv(Apply(w, Sign(rest), rounds, capacity), rounds)
  {
    hide Le64Bytes, Le64, Carries, Token, Logs;
    TokenCarries(w.provider.challenge, rest);
    SignLogs(w, Token(w.provider.challenge, rest), rounds);
  }

  lemma SignLogs(w: World, hat: seq<byte>, rounds: nat)
    requires Logs(w, rounds) && |w.fetched| == |w.signed| + 1 && Carries(hat, w.fetched[|w.signed|]) && w.provider.Verifying?
    ensures Logs(w.(provider := Replying(w.provider.round, hat, 0), signed := w.signed + [hat]), rounds)
  {
    hide Carries;
  }

  lemma ProviderStepInv(w: World, a: Action, rounds: nat, capacity: nat)
    requires Inv(w, rounds) && Enabled(w, a, capacity)
    requires a.Begin? || a.Open?
    ensures Inv(Apply(w, a, rounds, capacity), rounds)
  {
    hide Le64, Le64Bytes, Carries, Prefix, Logs, TokenFlow, ChallengeFlow;
    LogsOnly(w, Apply(w, a, rounds, capacity), rounds);
    if a.Begin? {
      assert [] + w.challengePipe == w.challengePipe;
      BeginFlow(w, rounds);
    } else {
      OpenFlow(w, rounds);
    }
  }

  /** The flows do not depend on how far the provider has come before it signs. */
  lemma BeginFlow(w: World, rounds: nat)
    requires Inv(w, rounds) && w.provider.Starting?
    ensures var v := w.(provider := Reading(1, []));
            && ChallengeFlow(v, 1, w.challengePipe) == ChallengeFlow(w, 1, w.challengePipe)
            && (w.client.Receiving? ==> TokenFlow(v, w.client.round, w.client.hat + w.hatPipe))
  {
    hide Le64, Le64Bytes, Carries, Prefix, Logs;
  }

  lemma OpenFlow(w: World, rounds: nat)
    requires Inv(w, rounds) && w.provider.Opening?
    ensures var v := w.(provider := Verifying(1, w.provider.challenge));
            w.client.Receiving? ==> TokenFlow(v, w.client.round, w.client.hat + w.hatPipe)
  {
    hide Le64, Le64Bytes, Carries, Prefix, Logs, ChallengeFlow;
  }

  lemma ProviderEndInv(w: World, a: Action, rounds: nat, capacity: nat)
    requires Inv(w, rounds) && Enabled(w, a, capacity)
    requires a.ProviderPeerGone? || a.ProviderFail?
    ensures Inv(Apply(w, a, rounds, capacity), rounds)
  {
    hide Le64, Le64Bytes, Carries, Prefix;
  }

  lemma StepInv(w: World, a: Action, rounds: nat, capacity: nat)
    requires Inv(w, rounds) && Enabled(w, a, capacity)
    ensures Inv(Apply(w, a, rounds, capacity), rounds)
  {
    hide Inv, SendStep, ReadStep, ReplyStep, SubmitStep, Token;
    match a {
      case Send(n) => SendInv(w, n, rounds, capacity);
      case Receive(n) => ReceiveInv(w, n, rounds, capacity);
      case Read(n) => ReadInv(w, n, rounds, capacity);
      case Reply(n) => ReplyInv(w, n, rounds, capacity);
      case Sign(rest) => SignInv(w, rest, rounds, capacity);
      case Fetch(_) => FetchInv(w, a, rounds, capacity);
      case Submit(_) => SubmitInv(w, a, rounds, capacity);
      case Finish => ClientStepInv(w, a, rounds, capacity);
      case ClientPeerGone => ClientStepInv(w, a, rounds, capacity);
      case ClientFail => ClientStepInv(w, a, rounds, capacity);
      case Begin => ProviderStepInv(w, a, rounds, capacity);
      case Open => ProviderStepInv(w, a, rounds, capacity);
      case ProviderPeerGone => ProviderEndInv(w, a, rounds, capacity);
      case ProviderFail => ProviderEndInv(w, a, rounds, capacity);
    }
  }

  // ----- runs

  predicate Run(ws: seq<World>, steps: seq<Action>, rounds: nat, capacity: nat) {
    && |ws| == |steps| + 1 && ws[0] == Initial()
    && forall i :: 0 <= i < |steps| ==> Enabled(ws[i], steps[i], capacity) && ws[i + 1] == Apply(ws[i], steps[i], rounds, capacity)
  }

  lemma InitialInv(rounds: nat)
    requires 1 <= rounds
    ensures Inv(Initial(), rounds)
  {
    assert [] + Initial().challengePipe == [];
  }

  lemma {:induction false} RunInv(ws: seq<World>, steps: seq<Action>, rounds: nat, capacity: nat, k: nat)
    requires 1 <= rounds && Run(ws, steps, rounds, capacity) && k < |ws|
    ensures Inv(ws[k], rounds)
  {
    hide Inv, Enabled, Apply;
    if k == 0 {
      InitialInv(rounds);
    } else {
      RunInv(ws, steps, rounds, capacity, k - 1);
      StepInv(ws[k - 1], steps[k - 1], rounds, capacity);
    }
  }

  // ----- what every run guarantees

  /** A token reaches the fingerprint TA only with the challenge fetched last, and
      it is the token Gatekeeper signed for that challenge. */
  lemma SubmitsFreshToken(ws: seq<World>, steps: seq<Action>, rounds: nat, capacity: nat, k: nat)
    requires 1 <= rounds && Run(ws, steps, rounds, capacity) && k < |steps| && |ws[k + 1].submitted| > |ws[k].submitted|
    ensures var w, v := ws[k], ws[k + 1];
            && w.fetched != [] && |w.submitted| < |w.signed| && v.submitted == w.submitted + [w.signed[|w.submitted|]]
            && |w.submitted| == |w.fetched| - 1
            && Carries(w.signed[|w.submitted|], w.fetched[|w.fetched| - 1])
  {
    hide Le64, Le64Bytes;
    RunInv(ws, steps, rounds, capacity, k);
  }

  /** Neither side ever holds a byte of another message: what the provider has read
      is the beginning of the challenge of its round, and what the client has read is
      the beginning of the token of its round. */
  lemma NoByteOfNextMessage(ws: seq<World>, steps: seq<Action>, rounds: nat, capacity: nat, k: nat)
    requires 1 <= rounds && Run(ws, steps, rounds, capacity) && k < |ws|
    ensures ws[k].provider.Reading? && ws[k].provider.got != [] ==>
              var p := ws[k].provider;
              1 <= p.round <= |ws[k].fetched| && Prefix(p.got + ws[k].challengePipe, Le64Bytes(ws[k].fetched[p.round - 1]))
    ensures ws[k].client.Receiving? && ws[k].client.hat != [] ==>
              var c := ws[k].client;
              1 <= c.round <= |ws[k].signed| && Prefix(c.hat + ws[k].hatPipe, ws[k].signed[c.round - 1])
  {
    hide Le64, Le64Bytes, Carries;
    RunInv(ws, steps, rounds, capacity, k);
  }

  /** Exit status 0 of both programs means every round was signed once and accepted once. */
  lemma SuccessMeansAllRounds(ws: seq<World>, steps: seq<Action>, rounds: nat, capacity: nat, k: nat)
    requires 1 <= rounds && Run(ws, steps, rounds, capacity) && k < |ws|
    requires ws[k].client == ClientExit(true) && ws[k].provider == ProviderExit(true)
    ensures var w := ws[k];
            && |w.signed| == |w.fetched| == w.accepted == rounds && w.submitted == w.signed
            && forall i :: 0 <= i < rounds ==> Carries(w.submitted[i], w.fetched[i])
  {
    hide Le64, Le64Bytes;
    RunInv(ws, steps, rounds, capacity, k);
  }

  // ----- how the two programs are started and waited for

  datatype Mode = Preflight | PreflightRenew | EnrolNew | EnrolExisting

  datatype ProviderCommand = Verify | VerifyEnrol

  datatype ClientCommand = AuthPreflight | AuthPreflightRenew | BioPipeline | BioPipelineExisting

  function ProviderOf(mode: Mode): ProviderCommand {
    if mode.Preflight? then Verify else VerifyEnrol
  }

  function ClientOf(mode: Mode): ClientCommand {
    match mode
    case PreflightRenew => AuthPreflightRenew
    case Preflight => AuthPreflight
    case EnrolExisting => BioPipelineExisting
    case EnrolNew => BioPipeline
  }

  /** Challenges `qsee-gatekeeper` signs. */
  function ProviderRounds(c: ProviderCommand): nat {
    if c.VerifyEnrol? then 2 else 1
  }

  /** Authorizations `fpc_build_info` asks for: one before capture or preflight, and
      another one before the template is finalized or the preflight renewed. */
  function ClientRounds(c: ClientCommand): nat {
    match c
    case AuthPreflight => 1
    case AuthPreflightRenew => 1 + 1
    case BioPipeline => 1 + 1
    case BioPipelineExisting => 1 + 1
  }

  lemma WiringAgrees(mode: Mode)
    ensures ClientRounds(ClientOf(mode)) == ProviderRounds(ProviderOf(mode)) == if mode.Preflight? then 1 else 2
  {
  }

  predicate ModeRun(mode: Mode, ws: seq<World>, steps: seq<Action>, capacity: nat) {
    && |ws| == |steps| + 1 && ws[0] == Initial()
    && forall i :: 0 <= i < |steps| ==>
         Enabled(ws[i], steps[i], capacity)
         && ws[i + 1] == ApplyEach(ws[i], steps[i], ClientRounds(ClientOf(mode)), ProviderRounds(ProviderOf(mode)), capacity)
  }

  /** The status of `authorize_oem.py`; `cancelled` by a signal at any time. */
  function Status(cancelled: bool, w: World): nat {
    if !cancelled && w.client == ClientExit(true) && w.provider == ProviderExit(true) then 0 else 1
  }

  /** Status 0 of an enrolment, or of a renewed preflight, means two rounds, of a
      plain preflight one, each signed, submitted and accepted. */
  lemma StatusMeansRounds(mode: Mode, ws: seq<World>, steps: seq<Action>, capacity: nat, k: nat, cancelled: bool)
    requires ModeRun(mode, ws, steps, capacity) && k < |ws| && Status(cancelled, ws[k]) == 0
    ensures var w := ws[k];
            && !cancelled && |w.signed| == |w.fetched| == w.accepted == (if mode.Preflight? then 1 else 2) && w.submitted == w.signed
            && forall i :: 0 <= i < |w.signed| ==> Carries(w.submitted[i], w.fetched[i])
  {
    hide Enabled, ApplyEach, Carries;
    WiringAgrees(mode);
    SuccessMeansAllRounds(ws, steps, ClientRounds(ClientOf(mode)), capacity, k);
  }

  // ----- no run gets stuck

  predicate Progress(a: Action) {
    !a.ClientFail? && !a.ProviderFail?
  }

  function SomeRest(): seq<byte> {
    Zeros(HAT_SIZE - 1 - CHALLENGE_SIZE)
  }

  /** In every reachable state in which a program still runs, some program can make
      progress by itself: there is no deadlock even if nothing times out. */
  lemma NeverStuck(w: World, rounds: nat, capacity: nat) returns (a: Action)
    requires Inv(w, rounds) && capacity >= 1 && !(w.client.ClientExit? && w.provider.ProviderExit?)
    ensures Enabled(w, a, capacity) && Progress(a)
  {
    hide Inv, Enabled;
    a := NextKind(w, rounds, capacity, 1, SomeRest());
  }

  /** A step in which nothing fails and no token is refused. */
  predicate Kind(a: Action) {
    Progress(a) && a != Submit(false)
  }

  /** The step is not a fetch or a signature other than these. */
  predicate Offered(a: Action, challenge: u64, rest: seq<byte>) {
    (a.Fetch? ==> a.challenge == challenge) && (a.Sign? ==> a.rest == rest)
  }

  /** And whatever challenge and token come next, such a step is a kind one. */
  lemma NextKind(w: World, rounds: nat, capacity: nat, challenge: u64, rest: seq<byte>) returns (a: Action)
    requires Inv(w, rounds) && capacity >= 1 && !(w.client.ClientExit? && w.provider.ProviderExit?)
    requires challenge != 0 && |rest| == HAT_SIZE - 1 - CHALLENGE_SIZE
    ensures Enabled(w, a, capacity) && Kind(a) && Offered(a, challenge, rest)
  {
    hide Le64, Le64Bytes, Carries, Logs, Prefix;
    SignedLength(w, rounds);
    match w.client {
      case Preparing(_) => a := Fetch(challenge);
      case Checking(_, _, _) => a := Submit(true);
      case Finishing => a := Finish;
      case Sending(_, _, _) =>
        a := if w.provider.ProviderExit? then ClientPeerGone
             else if w.provider.Starting? then Begin
             else if w.challengePipe != [] then Read(1) else Send(1);
      case Receiving(_, _, _) =>
        if w.hatPipe != [] {
          a := Receive(1);
        } else {
          a := ServesReceiver(w, rounds, capacity, rest);
        }
      case ClientExit(_) =>
        a := LeavesAlone(w, rounds, capacity, rest);
    }
  }

  lemma ServesReceiver(w: World, rounds: nat, capacity: nat, rest: seq<byte>) returns (a: Action)
    requires Inv(w, rounds) && capacity >= 1 && w.client.Receiving? && w.hatPipe == [] && |rest| == HAT_SIZE - 1 - CHALLENGE_SIZE
    ensures Enabled(w, a, capacity) && Kind(a) && !a.Fetch? && (a.Sign? ==> a.rest == rest)
  {
    hide Inv, Carries;
    match w.provider {
      case Starting => a := Begin;
      case Reading(_, _) =>
        ReaderHasInput(w, rounds);
        a := Read(1);
      case Opening(_) => a := Open;
      case Verifying(_, _) => a := Sign(rest);
      case Replying(_, _, _) =>
        ReplierHasOutput(w, rounds);
        a := Reply(1);
      case ProviderExit(_) => a := ClientPeerGone;
    }
  }

  lemma ReaderHasInput(w: World, rounds: nat)
    requires Inv(w, rounds) && w.client.Receiving? && w.hatPipe == [] && w.provider.Reading?
    ensures w.challengePipe != [] && |w.provider.got| < CHALLENGE_SIZE
  {
    hide Le64, Le64Bytes, Carries, Prefix;
  }

  lemma ReplierHasOutput(w: World, rounds: nat)
    requires Inv(w, rounds) && w.provider.Replying?
    ensures w.provider.sent < |w.provider.hat|
  {
    hide Le64, Le64Bytes, Prefix, ClientOk;
  }

  lemma LeavesAlone(w: World, rounds: nat, capacity: nat, rest: seq<byte>) returns (a: Action)
    requires Inv(w, rounds) && capacity >= 1 && w.client.ClientExit? && !w.provider.ProviderExit? && |rest| == HAT_SIZE - 1 - CHALLENGE_SIZE
    ensures Enabled(w, a, capacity) && Kind(a) && !a.Fetch? && (a.Sign? ==> a.rest == rest)
  {
    hide Le64, Le64Bytes, Carries, Logs, Prefix;
    match w.provider {
      case Starting => a := Begin;
      case Reading(_, _) => a := if w.challengePipe != [] then Read(1) else ProviderPeerGone;
      case Opening(_) => a := Open;
      case Verifying(_, _) => a := Sign(rest);
      case Replying(_, _, _) => a := ProviderPeerGone;
      case ProviderExit(_) => assert false;
    }
  }

  lemma SignedLength(w: World, rounds: nat)
    requires Logs(w, rounds)
    ensures forall i :: 0 <= i < |w.signed| ==> |w.signed[i]| == HAT_SIZE
    ensures |w.signed| <= |w.fetched|
  {
    hide Le64;
  }

  /** Work left; every step, failing ones included, takes some away. */
  function Measure(w: World, rounds: nat): int {
    ClientWork(w.client, rounds) + ProviderWork(w.provider, rounds)
  }

  function ClientWork(c: Client, rounds: nat): int {
    match c
    case Preparing(r) => 100 * (rounds - r) + 92
    case Sending(r, _, sent) => 100 * (rounds - r) + 90 - sent
    case Receiving(r, _, hat) => 100 * (rounds - r) + 81 - |hat|
    case Checking(r, _, _) => 100 * (rounds - r) + 11
    case Finishing => 2
    case ClientExit(_) => 0
  }

  function ProviderWork(p: Provider, rounds: nat): int {
    match p
    case Starting => 100 * rounds
    case Reading(r, got) => 100 * (rounds - r) + 92 - |got|
    case Opening(_) => 100 * (rounds - 1) + 83
    case Verifying(r, _) => 100 * (rounds - r) + 82
    case Replying(r, _, sent) => 100 * (rounds - r) + 81 - sent
    case ProviderExit(_) => 0
  }

  lemma MeasureDecreases(w: World, a: Action, rounds: nat, capacity: nat)
    requires Inv(w, rounds) && Enabled(w, a, capacity)
    ensures Measure(Apply(w, a, rounds, capacity), rounds) < Measure(w, rounds)
  {
    hide Le64, Le64Bytes, Carries, Logs, ChallengeFlow, TokenFlow, Token, Inv;
    match a {
      case Fetch(_) => ClientWorks(w, a, rounds, capacity);
      case Send(_) => ClientWorks(w, a, rounds, capacity);
      case Receive(_) => ClientWorks(w, a, rounds, capacity);
      case Submit(_) => ClientWorks(w, a, rounds, capacity);
      case Finish => ClientWorks(w, a, rounds, capacity);
      case ClientPeerGone => ClientWorks(w, a, rounds, capacity);
      case ClientFail => ClientWorks(w, a, rounds, capacity);
      case _ => ProviderWorks(w, a, rounds, capacity);
    }
  }

  lemma ClientWorks(w: World, a: Action, rounds: nat, capacity: nat)
    requires Inv(w, rounds) && Enabled(w, a, capacity)
    requires a.Fetch? || a.Send? || a.Receive? || a.Submit? || a.Finish? || a.ClientPeerGone? || a.ClientFail?
    ensures Measure(Apply(w, a, rounds, capacity), rounds) < Measure(w, rounds)
  {
    hide Le64, Le64Bytes, Carries, Logs, ChallengeFlow, TokenFlow, Token, ProviderWork, ProviderOk;
  }

  lemma ProviderWorks(w: World, a: Action, rounds: nat, capacity: nat)
    requires Inv(w, rounds) && Enabled(w, a, capacity)
    requires a.Begin? || a.Read? || a.Open? || a.Sign? || a.Reply? || a.ProviderPeerGone? || a.ProviderFail?
    ensures Measure(Apply(w, a, rounds, capacity), rounds) < Measure(w, rounds)
  {
    hide Le64, Le64Bytes, Carries, Logs, ChallengeFlow, TokenFlow, Token, ClientWork, ClientOk;
    SignedLength(w, rounds);
  }

  /** Every run is short: no interleaving keeps the two programs busy forever. */
  lemma {:induction false} RunsAreFinite(ws: seq<World>, steps: seq<Action>, rounds: nat, capacity: nat)
    requires 1 <= rounds && Run(ws, steps, rounds, capacity)
    ensures |steps| + Measure(ws[|steps|], rounds) <= 200 * rounds && Measure(ws[|steps|], rounds) >= 0
    decreases |steps|
  {
    hide Inv, Enabled, Apply, Measure;
    if steps == [] {
      MeasureStarts(rounds);
    } else {
      var n := |steps| - 1;
      RunsAreFinite(ws[..n + 1], steps[..n], rounds, capacity);
      RunInv(ws, steps, rounds, capacity, n);
      MeasureDecreases(ws[n], steps[n], rounds, capacity);
    }
    RunInv(ws, steps, rounds, capacity, |steps|);
    MeasureNatural(ws[|steps|], rounds);
  }

  lemma MeasureStarts(rounds: nat)
    requires 1 <= rounds
    ensures Measure(Initial(), rounds) <= 200 * rounds
  {
  }

  lemma MeasureNatural(w: World, rounds: nat)
    requires Inv(w, rounds)
    ensures Measure(w, rounds) >= 0
  {
    hide Le64, Le64Bytes;
  }

  // ----- runs that succeed

  /** Neither program has given up, and the client has not left before the provider. */
  predicate Going(w: World) {
    && w.client != ClientExit(false) && w.provider != ProviderExit(false)
    && (w.client == ClientExit(true) ==> w.provider == ProviderExit(true))
  }

  /** With every round accepted the provider has nothing left to do. */
  lemma AllDone(w: World, rounds: nat)
    requires Inv(w, rounds) && Going(w) && w.client.Finishing?
    ensures w.provider == ProviderExit(true)
  {
    hide Le64, Le64Bytes, Carries, Prefix, ChallengeFlow, TokenFlow;
  }

  /** Nobody's peer is gone while there is something left to say. */
  lemma PeersStay(w: World, a: Action, rounds: nat, capacity: nat)
    requires Inv(w, rounds) && Going(w) && Enabled(w, a, capacity)
    ensures !a.ClientPeerGone? && !a.ProviderPeerGone?
  {
    hide Le64, Le64Bytes, Carries, ChallengeFlow;
  }

  lemma ChallengeIsWhole(w: World, n: nat, rounds: nat, capacity: nat)
    requires Inv(w, rounds) && Going(w) && Enabled(w, Read(n), capacity)
    ensures Going(ReadStep(w, n))
  {
    hide Le64Bytes, Le64, Carries;
    var got := w.provider.got + w.challengePipe[..n];
    assert got + w.challengePipe[n..] == w.provider.got + w.challengePipe;
    if |got| == CHALLENGE_SIZE {
      var r := w.provider.round;
      var flow, message := got + w.challengePipe[n..], Le64Bytes(w.fetched[r - 1]);
      assert |flow| == CHALLENGE_SIZE && flow == message[..CHALLENGE_SIZE] == message;
      Le64RoundTrip(w.fetched[r - 1]);
    }
  }

  lemma KindStepGoes(w: World, a: Action, rounds: nat, capacity: nat)
    requires Inv(w, rounds) && Going(w) && Enabled(w, a, capacity) && Kind(a)
    ensures Going(Apply(w, a, rounds, capacity))
  {
    hide Le64, Le64Bytes, Inv, ReadStep, Carries;
    PeersStay(w, a, rounds, capacity);
    match a {
      case Submit(_) => TokenCarriesChallenge(w, rounds);
      case Read(n) => ChallengeIsWhole(w, n, rounds, capacity);
      case Finish => AllDone(w, rounds);
      case Fetch(_) => case Send(_) => case Receive(_) => case ClientPeerGone => case ClientFail =>
      case Begin => case Open => case Sign(_) => case Reply(_) => case ProviderPeerGone => case ProviderFail =>
    }
  }

  lemma TokenCarriesChallenge(w: World, rounds: nat)
    requires Inv(w, rounds) && w.client.Checking?
    ensures Carries(w.client.hat, w.client.challenge)
  {
    hide Le64, Le64Bytes, Carries, Prefix;
  }

  lemma {:induction false} KindRunGoes(ws: seq<World>, steps: seq<Action>, rounds: nat, capacity: nat, k: nat)
    requires 1 <= rounds && Run(ws, steps, rounds, capacity) && k < |ws|
    requires forall i :: 0 <= i < |steps| ==> Kind(steps[i])
    ensures Going(ws[k])
  {
    hide Inv, Enabled, Apply, Kind;
    if k == 0 {
    } else {
      KindRunGoes(ws, steps, rounds, capacity, k - 1);
      RunInv(ws, steps, rounds, capacity, k - 1);
      KindStepGoes(ws[k - 1], steps[k - 1], rounds, capacity);
    }
  }

  /** `w` can take no further step other than a failure. */
  ghost predicate Stopped(w: World, capacity: nat) {
    forall a :: Kind(a) ==> !Enabled(w, a, capacity)
  }

  /** Every run in which nothing fails and no token is refused, once it cannot go on,
      has ended in exit status 0. */
  lemma KindRunsSucceed(mode: Mode, ws: seq<World>, steps: seq<Action>, capacity: nat)
    requires ModeRun(mode, ws, steps, capacity) && capacity >= 1
    requires forall i :: 0 <= i < |steps| ==> Kind(steps[i])
    requires Stopped(ws[|steps|], capacity)
    ensures Status(false, ws[|steps|]) == 0
  {
    hide Enabled, ApplyEach, Inv, Going, Kind;
    WiringAgrees(mode);
    var rounds := ClientRounds(ClientOf(mode));
    var last := ws[|steps|];
    RunInv(ws, steps, rounds, capacity, |steps|);
    KindRunGoes(ws, steps, rounds, capacity, |steps|);
    if !(last.client.ClientExit? && last.provider.ProviderExit?) {
      var a := NextKind(last, rounds, capacity, 1, SomeRest());
    }
    GoneWell(last);
  }

  lemma GoneWell(w: World)
    requires Going(w) && w.client.ClientExit? && w.provider.ProviderExit?
    ensures Status(false, w) == 0
  {
  }

  // ----- and one for every choice of challenges and tokens

  /** The challenges fetched and the tokens signed are the first of these. */
  predicate Told(w: World, challenges: seq<u64>, rests: seq<seq<byte>>) {
    && |w.signed| <= |rests| == |challenges| && w.fetched <= challenges
    && forall i :: 0 <= i < |w.signed| ==> w.signed[i] == Token(challenges[i], rests[i])
  }

  predicate Choices(rounds: nat, challenges: seq<u64>, rests: seq<seq<byte>>) {
    && |challenges| == |rests| == rounds && (forall i :: 0 <= i < rounds ==> challenges[i] != 0)
    && forall i :: 0 <= i < rounds ==> |rests[i]| == HAT_SIZE - 1 - CHALLENGE_SIZE
  }

  function NextChallenge(w: World, challenges: seq<u64>): u64 {
    if |w.fetched| < |challenges| then challenges[|w.fetched|] else 1
  }

  function NextRest(w: World, rests: seq<seq<byte>>): seq<byte> {
    if |w.signed| < |rests| then rests[|w.signed|] else SomeRest()
  }

  lemma ToldStep(w: World, a: Action, rounds: nat, capacity: nat, challenges: seq<u64>, rests: seq<seq<byte>>)
    requires Inv(w, rounds) && Enabled(w, a, capacity) && Choices(rounds, challenges, rests) && Told(w, challenges, rests)
    requires Offered(a, NextChallenge(w, challenges), NextRest(w, rests))
    ensures Told(Apply(w, a, rounds, capacity), challenges, rests)
  {
    hide Le64, Le64Bytes, Carries, Prefix, ChallengeFlow, TokenFlow, Token;
    match a {
      case Fetch(_) => case Send(_) => case Receive(_) => case Submit(_) => case Finish => case ClientPeerGone => case ClientFail =>
      case Begin => case Read(_) => case Open => case Sign(_) => case Reply(_) => case ProviderPeerGone => case ProviderFail =>
    }
  }

  /** Steps that lead from `w` to the end. */
  predicate Path(w: World, ws: seq<World>, steps: seq<Action>, rounds: nat, capacity: nat) {
    && |ws| == |steps| + 1 && ws[0] == w
    && forall i :: 0 <= i < |steps| ==> Enabled(ws[i], steps[i], capacity) && Kind(steps[i]) && ws[i + 1] == Apply(ws[i], steps[i], rounds, capacity)
  }

  lemma PathFrom(w: World, a: Action, ws: seq<World>, steps: seq<Action>, rounds: nat, capacity: nat)
    requires Enabled(w, a, capacity) && Kind(a) && Path(Apply(w, a, rounds, capacity), ws, steps, rounds, capacity)
    ensures Path(w, [w] + ws, [a] + steps, rounds, capacity)
  {
    hide Enabled, Apply, Kind;
  }

  lemma {:induction false} RunOn(w: World, rounds: nat, capacity: nat, challenges: seq<u64>, rests: seq<seq<byte>>)
    returns (ws: seq<World>, steps: seq<Action>)
    requires Inv(w, rounds) && Going(w) && capacity >= 1 && Choices(rounds, challenges, rests) && Told(w, challenges, rests)
    ensures Path(w, ws, steps, rounds, capacity)
    ensures Told(ws[|steps|], challenges, rests) && Inv(ws[|steps|], rounds) && Status(false, ws[|steps|]) == 0
    decreases Measure(w, rounds)
  {
    hide Inv, Enabled, Apply, Measure, Going, Told, Kind, Offered;
    if w.client.ClientExit? && w.provider.ProviderExit? {
      ws, steps := [w], [];
      GoneWell(w);
    } else {
      var a := NextKind(w, rounds, capacity, NextChallenge(w, challenges), NextRest(w, rests));
      var v := Apply(w, a, rounds, capacity);
      StepInv(w, a, rounds, capacity);
      KindStepGoes(w, a, rounds, capacity);
      ToldStep(w, a, rounds, capacity, challenges, rests);
      MeasureDecreases(w, a, rounds, capacity);
      MeasureNatural(w, rounds);
      MeasureNatural(v, rounds);
      var vs, more := RunOn(v, rounds, capacity, challenges, rests);
      PathFrom(w, a, vs, more, rounds, capacity);
      ws, steps := [w] + vs, [a] + more;
    }
  }

  /** Whatever nonzero challenges the fingerprint TA gives and whatever tokens carry
      them, every mode has a run to exit status 0 over pipes of any capacity: one
      round for a plain preflight, two for the others, the tokens submitted in order. */
  lemma ModeSucceeds(mode: Mode, capacity: nat, challenges: seq<u64>, rests: seq<seq<byte>>) returns (ws: seq<World>, steps: seq<Action>)
    requires capacity >= 1 && Choices(if mode.Preflight? then 1 else 2, challenges, rests)
    ensures ModeRun(mode, ws, steps, capacity) && Status(false, ws[|steps|]) == 0
    ensures var w := ws[|steps|];
            && w.fetched == challenges && w.accepted == |challenges| == |w.submitted|
            && forall i :: 0 <= i < |challenges| ==> w.submitted[i] == Token(challenges[i], rests[i])
  {
    hide Inv, Enabled, ApplyEach, Going, Kind, Token;
    WiringAgrees(mode);
    var rounds := ClientRounds(ClientOf(mode));
    InitialInv(rounds);
    StartsGoing();
    ws, steps := RunOn(Initial(), rounds, capacity, challenges, rests);
    assert ModeRun(mode, ws, steps, capacity);
    SuccessMeansAllRounds(ws, steps, rounds, capacity, |steps|);
  }

  lemma StartsGoing()
    ensures Going(Initial())
  {
  }

  /** The token's 69 bytes: version, challenge least significant byte first, rest. */
  lemma TokenBytes(challenge: u64, rest: seq<byte>)
    requires |rest| == 60
    ensures var t := Token(challenge, rest);
            && |t| == 69 && t[0] == 0 && t[9..] == rest
            && challenge == t[1] + 0x100 * t[2] as int + 0x1_0000 * t[3] as int + 0x100_0000 * t[4] as int
                 + 0x1_0000_0000 * (t[5] + 0x100 * t[6] as int + 0x1_0000 * t[7] as int + 0x100_0000 * t[8] as int)
  {
    hide Le64Bytes;
    TokenCarries(challenge, rest);
  }
}
