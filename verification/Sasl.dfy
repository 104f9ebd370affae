/**
 The SASL negotiation engine of curl_sasl.c.

 `SaslEngine.Start` and `SaslEngine.Continue` follow Curl_sasl_start and Curl_sasl_continue
 branch by branch.  Their contract is a table: every mechanism owns a script of client payloads
 and a row of states, one state per payload.  What the source promises of whole negotiations is
 proved about that table.
 */
module Sasl {
  import opened Basics

  type Text = string

  /** SASL_MECH_*. */
  datatype Mech = EXTERNAL | GSSAPI | DIGEST_MD5 | CRAM_MD5 | NTLM | XOAUTH2 | LOGIN | PLAIN

  /** saslstate. */
  datatype State =
    | Stop | Plain | Login | LoginPasswd | External | CramMd5 | DigestMd5 | DigestMd5Resp
    | Ntlm | NtlmType2Msg | GssApi | GssApiToken | GssApiNoData | XOAuth2 | Cancel | Final

  datatype Progress = Idle | InProgress | Done

  /** The CURLcode values the engine tells apart; every other failure is `Failed`. */
  datatype Code = OK | BadContentEncoding | LoginDenied | UnsupportedProtocol | Failed(code: int)

  type Error = c: Code | c != OK witness LoginDenied

  /** The messages the client can create. */
  datatype Payload =
    | Identity | GssUserToken | GssReplyToken | GssSecurity | DigestResponse | DigestAck
    | CramResponse | NtlmType1 | NtlmType3 | Bearer | UserName | Password | PlainMessage

  /** What a message creator answers; a GSS-API creator can succeed without a token. */
  datatype Outcome = Made(text: Option<Text>) | Refused(code: Error)

  /** What the client did: AUTH, a continuation, a payload that turned out empty, or "*". */
  datatype Wire = Auth(mech: Mech, ir: Option<Text>) | Cont(kind: Payload, text: Text) | Silent(kind: Payload) | Star

  /** The world during one call: the message creators and the result of the send callback. */
  datatype Io = Io(make: Payload -> Outcome, send: Code)

  /** struct SASLproto, the compile-time switches, and the connection. */
  datatype Proto = Proto(contcode: int, finalcode: int, maxirlen: nat)
  datatype Build = Build(kerberos5: bool, cryptoAuth: bool, ntlm: bool)
  datatype Conn = Conn(passwd: Text, userPasswd: bool, bearer: Option<Text>, saslIr: bool)
  datatype Setup = Setup(proto: Proto, build: Build, conn: Conn)

  const ALL_MECHS: set<Mech> := {EXTERNAL, GSSAPI, DIGEST_MD5, CRAM_MD5, NTLM, XOAUTH2, LOGIN, PLAIN}

  /** SASL_AUTH_DEFAULT. */
  const AUTH_DEFAULT: set<Mech> := ALL_MECHS - {EXTERNAL, XOAUTH2}

  function Name(m: Mech): string {
    match m
    case EXTERNAL => "EXTERNAL"
    case GSSAPI => "GSSAPI"
    case DIGEST_MD5 => "DIGEST-MD5"
    case CRAM_MD5 => "CRAM-MD5"
    case NTLM => "NTLM"
    case XOAUTH2 => "XOAUTH2"
    case LOGIN => "LOGIN"
    case PLAIN => "PLAIN"
  }

  /** `^=` on mechanism bits. */
  function Xor(a: set<Mech>, used: Option<Mech>): set<Mech> {
    match used
    case None => a
    case Some(m) => if m in a then a - {m} else a + {m}
  }

  // ---------------------------------------------------------------- the table

  /** The complete payload script of a mechanism. */
  function Script(m: Mech, mutual: bool): seq<Payload> {
    match m
    case EXTERNAL => [Identity]
    case GSSAPI => if mutual then [GssUserToken, GssReplyToken, GssSecurity] else [GssUserToken, GssSecurity]
    case DIGEST_MD5 => [DigestResponse, DigestAck]
    case CRAM_MD5 => [CramResponse]
    case NTLM => [NtlmType1, NtlmType3]
    case XOAUTH2 => [Bearer]
    case LOGIN => [UserName, Password]
    case PLAIN => [PlainMessage]
  }

  /** The states in which the payloads of the script are due. */
  function Stations(m: Mech, mutual: bool): (r: seq<State>)
    ensures |r| == |Script(m, mutual)|
  {
    match m
    case EXTERNAL => [External]
    case GSSAPI => if mutual then [GssApi, GssApiToken, GssApiNoData] else [GssApi, GssApiToken]
    case DIGEST_MD5 => [DigestMd5, DigestMd5Resp]
    case CRAM_MD5 => [CramMd5]
    case NTLM => [Ntlm, NtlmType2Msg]
    case XOAUTH2 => [XOAuth2]
    case LOGIN => [Login, LoginPasswd]
    case PLAIN => [Plain]
  }

  /** The state in which payload `k` of the script is due. */
  function StationAt(m: Mech, mutual: bool, k: nat): State {
    if k < |Script(m, mutual)| then Stations(m, mutual)[k] else Final
  }

  predicate IsStation(s: State) {
    s !in {Stop, Cancel, Final}
  }

  function MechOf(s: State): Mech
    requires IsStation(s)
  {
    if s == External then EXTERNAL
    else if s in {GssApi, GssApiToken, GssApiNoData} then GSSAPI
    else if s in {DigestMd5, DigestMd5Resp} then DIGEST_MD5
    else if s == CramMd5 then CRAM_MD5
    else if s in {Ntlm, NtlmType2Msg} then NTLM
    else if s == XOAuth2 then XOAUTH2
    else if s in {Login, LoginPasswd} then LOGIN
    else PLAIN
  }

  function PositionOf(s: State): nat
    requires IsStation(s)
  {
    if s in {GssApiToken, DigestMd5Resp, NtlmType2Msg, LoginPasswd} then 1
    else if s == GssApiNoData then 2
    else 0
  }

  /** GssApiNoData belongs to the mutual dialogue only. */
  function MutualAt(s: State, mutual: bool): bool {
    mutual || s == GssApiNoData
  }

  lemma StationsLocate(m: Mech, mutual: bool, k: nat)
    requires k < |Script(m, mutual)|
    ensures IsStation(StationAt(m, mutual, k))
    ensures MechOf(StationAt(m, mutual, k)) == m && PositionOf(StationAt(m, mutual, k)) == k
    ensures m == GSSAPI ==> MutualAt(StationAt(m, mutual, k), mutual) == mutual
  {
  }

  /** Mechanisms by decreasing security. */
  function Preference(): seq<Mech> {
    [EXTERNAL, GSSAPI, DIGEST_MD5, CRAM_MD5, NTLM, XOAUTH2, LOGIN, PLAIN]
  }

  function Place(m: Mech): (i: nat)
    ensures i < 8 && Preference()[i] == m
  {
    match m
    case EXTERNAL => 0
    case GSSAPI => 1
    case DIGEST_MD5 => 2
    case CRAM_MD5 => 3
    case NTLM => 4
    case XOAUTH2 => 5
    case LOGIN => 6
    case PLAIN => 7
  }

  predicate Compiled(b: Build, m: Mech) {
    && (m == GSSAPI ==> b.kerberos5)
    && (m in {DIGEST_MD5, CRAM_MD5} ==> b.cryptoAuth)
    && (m == NTLM ==> b.ntlm)
  }

  /** Whether a mechanism can be chosen when `enabled` are enabled. */
  predicate Eligible(setup: Setup, enabled: set<Mech>, m: Mech) {
    && Compiled(setup.build, m)
    && (m in enabled || (m == XOAUTH2 && setup.conn.bearer.Some?))
    && (if m == EXTERNAL then setup.conn.passwd == "" else setup.conn.userPasswd)
  }

  /** The most preferred eligible mechanism. */
  function Best(setup: Setup, enabled: set<Mech>): Option<Mech> {
    BestFrom(setup, enabled, 0)
  }

  function BestFrom(setup: Setup, enabled: set<Mech>, i: nat): (r: Option<Mech>)
    requires i <= 8
    ensures r.None? ==> forall m | i <= Place(m) :: !Eligible(setup, enabled, m)
    ensures r.Some? ==> Eligible(setup, enabled, r.value) && i <= Place(r.value)
    ensures r.Some? ==> forall m | i <= Place(m) && Eligible(setup, enabled, m) :: Place(r.value) <= Place(m)
    decreases 8 - i
  {
    if i == 8 then None
    else if Eligible(setup, enabled, Preference()[i]) then Some(Preference()[i])
    else
      assert forall m | i <= Place(m) :: m == Preference()[i] || i + 1 <= Place(m);
      BestFrom(setup, enabled, i + 1)
  }

  /** No better mechanism, or none at all, determines the choice. */
  lemma BestIs(setup: Setup, enabled: set<Mech>, mech: Option<Mech>)
    requires mech.Some? ==> Eligible(setup, enabled, mech.value)
    requires forall m | Eligible(setup, enabled, m) :: mech.Some? && Place(mech.value) <= Place(m)
    ensures Best(setup, enabled) == mech
  {
    var b := Best(setup, enabled);
    assert b.Some? ==> Preference()[Place(b.value)] == b.value;
    assert mech.Some? ==> Preference()[Place(mech.value)] == mech.value;
  }

  /** The client opens the dialogue, so its first payload can be an initial response. */
  predicate ClientFirst(m: Mech) {
    m !in {DIGEST_MD5, CRAM_MD5}
  }

  // ---------------------------------------------------------------- one call

  /** struct SASL, and what was put on the wire. */
  datatype Engine = Engine(
    state: State, authmechs: set<Mech>, prefmech: set<Mech>, authused: Option<Mech>,
    mutual: bool, forceIr: bool, wire: seq<Wire>)

  /** Where a call leaves the engine and what it returns. */
  datatype Step = Step(engine: Engine, code: Code, progress: Progress)

  /** The creator called for the initial response, if one is wanted. */
  function FirstOutcome(setup: Setup, m: Mech, forceIr: bool, io: Io): Outcome {
    if ClientFirst(m) && (forceIr || setup.conn.saslIr) then io.make(Script(m, false)[0]) else Made(None)
  }

  /** An initial response longer than the protocol allows is held back. */
  function Trimmed(setup: Setup, m: Mech, ir: Option<Text>): Option<Text> {
    if ir.Some? && setup.proto.maxirlen != 0 && |Name(m)| + |ir.value| > setup.proto.maxirlen then None else ir
  }

  function StartStep(setup: Setup, e: Engine, forceIr: bool, io: Io): Step {
    match Best(setup, e.authmechs * e.prefmech)
    case None => Step(e.(forceIr := forceIr, authused := None), OK, Idle)
    case Some(m) =>
      var e1 := e.(forceIr := forceIr, authused := Some(m), mutual := if m == GSSAPI then false else e.mutual);
      match FirstOutcome(setup, m, forceIr, io)
      case Refused(c) => Step(e1, c, Idle)
      case Made(first) =>
        var ir := Trimmed(setup, m, first);
        if io.send != OK then Step(e1, io.send, Idle)
        else
          var k := if ir.Some? then 1 else 0;
          Step(e1.(state := StationAt(m, e1.mutual, k), wire := e.wire + [Auth(m, ir)]), OK, InProgress)
  }

  /** The cancel exchange: "*" goes out and the mechanism is dropped on the next call. */
  function Cancelled(e: Engine, io: Io, p: Progress): Step {
    Step(e.(state := Cancel, wire := if io.send == OK then e.wire + [Star] else e.wire), io.send, p)
  }

  /** How the engine reacts to one created payload: new state, log entry, result. */
  datatype Reaction = Reaction(state: State, entry: Option<Wire>, code: Code, progress: Progress)

  /** The payload `kind` is created and sent, and `next` becomes due. */
  function Deliver(kind: Payload, next: State, io: Io): Reaction {
    match io.make(kind)
    case Refused(c) =>
      if c == BadContentEncoding then Reaction(Cancel, if io.send == OK then Some(Star) else None, io.send, InProgress)
      else Reaction(Stop, None, c, Done)
    case Made(None) => Reaction(next, Some(Silent(kind)), OK, InProgress)
    case Made(Some(t)) => Reaction(next, if io.send == OK then Some(Cont(kind, t)) else None, io.send, InProgress)
  }

  function Logged(w: seq<Wire>, entry: Option<Wire>): seq<Wire> {
    if entry.Some? then w + [entry.value] else w
  }

  function React(e: Engine, r: Reaction): Step {
    Step(e.(state := r.state, wire := Logged(e.wire, r.entry)), r.code, r.progress)
  }

  /** The reaction in a state of the dialogue. */
  function Reply(build: Build, state: State, mutual: bool, io: Io): Reaction
    requires IsStation(state)
  {
    var m, k, mutual' := MechOf(state), PositionOf(state), MutualAt(state, mutual);
    if Compiled(build, m) then Deliver(Script(m, mutual')[k], StationAt(m, mutual', k + 1), io)
    else Reaction(Stop, None, UnsupportedProtocol, Done)
  }

  function PayloadStep(setup: Setup, e: Engine, io: Io): Step
    requires IsStation(e.state)
  {
    React(e, Reply(setup.build, e.state, e.mutual, io))
  }

  /** What follows the creation of a message, or the start of another mechanism. */
  function Tail(r: Code, p: Progress, next: State, said: Option<Wire>, io: Io): Reaction {
    if r == BadContentEncoding then Reaction(Cancel, if io.send == OK then Some(Star) else None, io.send, p)
    else if r != OK then Reaction(Stop, None, r, Done)
    else if said.Some? && said.value.Cont? then Reaction(next, if io.send == OK then said else None, io.send, p)
    else Reaction(next, said, OK, p)
  }

  /** The mechanism in use is dropped and another one is started. */
  function CancelStep(setup: Setup, e: Engine, io: Io): Step {
    var s := StartStep(setup, e.(authmechs := Xor(e.authmechs, e.authused)), e.forceIr, io);
    if s.code == OK then s
    else if s.code == BadContentEncoding then Cancelled(s.engine, io, s.progress)
    else Step(s.engine.(state := Stop), s.code, Done)
  }

  function ContinueStep(setup: Setup, e: Engine, code: int, io: Io): Step {
    if e.state == Final then
      Step(e.(state := Stop), if code == setup.proto.finalcode then OK else LoginDenied, Done)
    else if e.state == Cancel then CancelStep(setup, e, io)
    else if code != setup.proto.contcode then Step(e.(state := Stop), LoginDenied, Done)
    else if e.state == Stop then Step(e, OK, Done)
    else PayloadStep(setup, e, io)
  }

  /** struct SASL and the two entry points. */
  class SaslEngine {
    const setup: Setup
    var state: State
    var authmechs: set<Mech>
    var prefmech: set<Mech>
    var authused: Option<Mech>
    var mutualAuth: bool
    var forceIr: bool
    var wire: seq<Wire>

    ghost function View(): Engine
      reads this
    {
      Engine(state, authmechs, prefmech, authused, mutualAuth, forceIr, wire)
    }

    /** Curl_sasl_init. */
    constructor (setup: Setup)
      ensures this.setup == setup
      ensures View() == Engine(Stop, {}, AUTH_DEFAULT, None, false, false, [])
    {
      this.setup := setup;
      state, authmechs, prefmech, authused := Stop, {}, AUTH_DEFAULT, None;
      mutualAuth, forceIr, wire := false, false, [];
    }

    /** Curl_sasl_start: the chain that picks the mechanism. */
    method Choose() returns (mech: Option<Mech>)
      modifies this`authused, this`mutualAuth
      ensures mech == Best(setup, authmechs * prefmech) && authused == mech
      ensures mutualAuth == if mech == Some(GSSAPI) then false else old(mutualAuth)
    {
      var conn, build := setup.conn, setup.build;
      var enabledmechs := authmechs * prefmech;
      mech := None;
      if EXTERNAL in enabledmechs && conn.passwd == "" {
        mech := Some(EXTERNAL);
      } else if conn.userPasswd {
        if build.kerberos5 && GSSAPI in enabledmechs {
          mutualAuth := false;
          mech := Some(GSSAPI);
        } else if build.cryptoAuth && DIGEST_MD5 in enabledmechs {
          mech := Some(DIGEST_MD5);
        } else if build.cryptoAuth && CRAM_MD5 in enabledmechs {
          mech := Some(CRAM_MD5);
        } else if build.ntlm && NTLM in enabledmechs {
          mech := Some(NTLM);
        } else if XOAUTH2 in enabledmechs || conn.bearer.Some? {
          mech := Some(XOAUTH2);
        } else if LOGIN in enabledmechs {
          mech := Some(LOGIN);
        } else if PLAIN in enabledmechs {
          mech := Some(PLAIN);
        }
      }
      authused := mech;
      BestIs(setup, enabledmechs, mech);
    }

    /** Curl_sasl_start: the states of the mechanism, and its initial response if one is wanted. */
    method Open(mech: Mech, wanted: bool, io: Io) returns (resp: Outcome, state1: State, state2: State)
      requires mech == GSSAPI ==> !mutualAuth
      ensures resp == if wanted && ClientFirst(mech) then io.make(Script(mech, false)[0]) else Made(None)
      ensures state1 == StationAt(mech, mutualAuth, 0)
      ensures ClientFirst(mech) ==> state2 == StationAt(mech, mutualAuth, 1)
    {
      resp, state2 := Made(None), Final;
      match mech {
        case EXTERNAL =>
          state1 := External;
          if wanted { resp := io.make(Identity); }
        case GSSAPI =>
          state1, state2 := GssApi, GssApiToken;
          if wanted { resp := io.make(GssUserToken); }
        case DIGEST_MD5 =>
          state1 := DigestMd5;
        case CRAM_MD5 =>
          state1 := CramMd5;
        case NTLM =>
          state1, state2 := Ntlm, NtlmType2Msg;
          if wanted { resp := io.make(NtlmType1); }
        case XOAUTH2 =>
          state1 := XOAuth2;
          if wanted { resp := io.make(Bearer); }
        case LOGIN =>
          state1, state2 := Login, LoginPasswd;
          if wanted { resp := io.make(UserName); }
        case PLAIN =>
          state1 := Plain;
          if wanted { resp := io.make(PlainMessage); }
      }
    }

    /** Curl_sasl_start: an initial response that is too long is held back, and AUTH goes out. */
    method SendAuth(mech: Mech, text: Option<Text>, state1: State, state2: State, io: Io)
      returns (result: Code, progress: Progress)
      modifies this`wire, this`state
      ensures result == io.send
      ensures progress == if io.send == OK then InProgress else Idle
      ensures io.send != OK ==> wire == old(wire) && state == old(state)
      ensures io.send == OK ==>
                var ir := Trimmed(setup, mech, text);
                wire == old(wire) + [Auth(mech, ir)] && state == if ir.Some? then state2 else state1
    {
      var ir := text;
      if ir.Some? && setup.proto.maxirlen != 0 && |Name(mech)| + |ir.value| > setup.proto.maxirlen {
        ir := None;
      }
      result, progress := io.send, Idle;
      if result == OK {
        wire := wire + [Auth(mech, ir)];
        progress := InProgress;
        state := if ir.Some? then state2 else state1;
      }
    }

    /** Curl_sasl_start. */
    method Start(force: bool, io: Io) returns (result: Code, progress: Progress)
      modifies this
      ensures Step(View(), result, progress) == StartStep(setup, old(View()), force, io)
    {
      forceIr := force;
      result, progress := OK, Idle;
      var mech := Choose();
      if mech.Some? {
        var resp, state1, state2 := Open(mech.value, force || setup.conn.saslIr, io);
        match resp {
          case Refused(c) =>
            result := c;
          case Made(text) =>
            result, progress := SendAuth(mech.value, text, state1, state2, io);
        }
      }
    }

    /** The payload due in the current state, the state that follows, and whether it is compiled in. */
    method Due() returns (kind: Payload, newstate: State, supported: bool)
      requires IsStation(state)
      ensures kind == Script(MechOf(state), MutualAt(state, mutualAuth))[PositionOf(state)]
      ensures newstate == StationAt(MechOf(state), MutualAt(state, mutualAuth), PositionOf(state) + 1)
      ensures supported == Compiled(setup.build, MechOf(state))
    {
      newstate, supported := Final, true;
      match state {
        case Plain => kind := PlainMessage;
        case Login => kind, newstate := UserName, LoginPasswd;
        case LoginPasswd => kind := Password;
        case External => kind := Identity;
        case CramMd5 => kind, supported := CramResponse, setup.build.cryptoAuth;
        case DigestMd5 => kind, newstate, supported := DigestResponse, DigestMd5Resp, setup.build.cryptoAuth;
        case DigestMd5Resp => kind, supported := DigestAck, setup.build.cryptoAuth;
        case Ntlm => kind, newstate, supported := NtlmType1, NtlmType2Msg, setup.build.ntlm;
        case NtlmType2Msg => kind, supported := NtlmType3, setup.build.ntlm;
        case GssApi => kind, newstate, supported := GssUserToken, GssApiToken, setup.build.kerberos5;
        case GssApiToken =>
          supported := setup.build.kerberos5;
          if mutualAuth {
            kind, newstate := GssReplyToken, GssApiNoData;
          } else {
            kind := GssSecurity;
          }
        case GssApiNoData => kind, supported := GssSecurity, setup.build.kerberos5;
        case XOAuth2 => kind := Bearer;
      }
    }

    /** Curl_sasl_continue: what follows the switch. */
    method Finish(r: Code, p: Progress, next: State, said: Option<Wire>, io: Io)
      returns (result: Code, progress: Progress)
      modifies this`wire, this`state
      ensures Step(View(), result, progress) == React(old(View()), Tail(r, p, next, said, io))
    {
      var newstate := next;
      result, progress := r, p;
      if result == BadContentEncoding {
        result := io.send;
        newstate := Cancel;
        if result == OK {
          wire := wire + [Star];
        }
      } else if result == OK {
        if said.Some? && said.value.Cont? {
          result := io.send;
        }
        if said.Some? && result == OK {
          wire := wire + [said.value];
        }
      } else {
        newstate := Stop;
        progress := Done;
      }
      state := newstate;
    }

    /** Curl_sasl_continue, when the server has answered the "*": another mechanism is started. */
    method ContinueCancelled(io: Io) returns (result: Code, progress: Progress)
      requires state == Cancel
      modifies this
      ensures Step(View(), result, progress) == CancelStep(setup, old(View()), io)
    {
      // the mechanism that failed is not tried again
      authmechs := Xor(authmechs, authused);
      var r, p := Start(forceIr, io);
      result, progress := Finish(r, p, state, None, io);
    }

    /** Curl_sasl_continue, in the dialogue of a mechanism. */
    method ContinueDialogue(io: Io) returns (result: Code, progress: Progress)
      requires IsStation(state)
      modifies this`wire, this`state
      ensures Step(View(), result, progress) == PayloadStep(setup, old(View()), io)
    {
      var kind, newstate, supported := Due();
      var made := if supported then io.make(kind) else Refused(UnsupportedProtocol);
      match made {
        case Made(None) =>
          result, progress := Finish(OK, InProgress, newstate, Some(Silent(kind)), io);
        case Made(Some(text)) =>
          result, progress := Finish(OK, InProgress, newstate, Some(Cont(kind, text)), io);
        case Refused(c) =>
          result, progress := Finish(c, InProgress, newstate, None, io);
      }
    }

    /** Curl_sasl_continue. */
    method Continue(code: int, io: Io) returns (result: Code, progress: Progress)
      modifies this
      ensures Step(View(), result, progress) == ContinueStep(setup, old(View()), code, io)
      // the final answer decides; in a dialogue, anything but a go-ahead denies the login, and nothing is sent
      ensures old(state) == Final ==> progress == Done && (result == OK <==> code == setup.proto.finalcode)
      ensures old(state) !in {Cancel, Final} && code != setup.proto.contcode ==>
                result == LoginDenied && progress == Done && state == Stop && wire == old(wire)
    {
      if state == Final {
        result := if code != setup.proto.finalcode then LoginDenied else OK;
        state := Stop;
        return result, Done;
      }
      if state != Cancel && code != setup.proto.contcode {
        state := Stop;
        return LoginDenied, Done;
      }
      if state == Stop {
        return OK, Done;
      }
      if state == Cancel {
        result, progress := ContinueCancelled(io);
      } else {
        result, progress := ContinueDialogue(io);
      }
    }
  }
}
