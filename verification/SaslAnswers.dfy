/** What one more server answer does to a negotiation, whatever came before it. */
module SaslAnswers {
  import opened Basics
  import opened Sasl
  import opened SaslRuns

  /** After the answers `evs` the negotiation goes on, with the engine at `at`. */
  predicate Stands(setup: Setup, e: Engine, force: bool, io: Io, evs: seq<Event>, at: Engine) {
    Live(Negotiation(setup, e, force, io, evs)) && Negotiation(setup, e, force, io, evs).engine == at
  }

  /** The same, from a new engine and with callers that owe nothing. */
  ghost predicate StandsHonestly(setup: Setup, e: Engine, force: bool, io: Io, evs: seq<Event>, at: Engine) {
    e.wire == [] && Honest(io) && AllHonest(evs) && Stands(setup, e, force, io, evs, at)
  }

  lemma OneMoreAnswer(setup: Setup, e: Engine, force: bool, io: Io, evs: seq<Event>, at: Engine, last: Event)
    requires Stands(setup, e, force, io, evs, at)
    ensures Negotiation(setup, e, force, io, evs + [last]) == ContinueStep(setup, at, last.code, last.io)
  {
    var s := StartStep(setup, e, force, io);
    RunInTwo(setup, s, evs, [last]);
    assert [last] == [last] + [];
    RunOne(setup, Run(setup, s, evs), last, []);
  }

  /** An answer other than `contcode` in a dialogue: login is denied, and nothing more is sent. */
  lemma RefusalEnds(setup: Setup, e: Engine, force: bool, io: Io, evs: seq<Event>, at: Engine, last: Event)
    requires Stands(setup, e, force, io, evs, at) && at.state !in {Cancel, Final}
    requires last.code != setup.proto.contcode
    ensures var after := Negotiation(setup, e, force, io, evs + [last]);
            && after.code == LoginDenied && after.progress == Done
            && after.engine.state == Stop && after.engine.wire == at.wire && after.engine == at.(state := Stop)
  {
    OneMoreAnswer(setup, e, force, io, evs, at, last);
  }

  /** The verdict: `finalcode` grants the login, anything else denies it, and nothing more is sent. */
  lemma VerdictEnds(setup: Setup, e: Engine, force: bool, io: Io, evs: seq<Event>, at: Engine, last: Event)
    requires Stands(setup, e, force, io, evs, at) && at.state == Final
    ensures var after := Negotiation(setup, e, force, io, evs + [last]);
            && after.code == (if last.code == setup.proto.finalcode then OK else LoginDenied)
            && after.progress == Done && after.engine == at.(state := Stop)
  {
    OneMoreAnswer(setup, e, force, io, evs, at, last);
  }

  /** Whatever the server says to the "*", the client goes on the same way. */
  lemma CancelIgnoresTheCode(setup: Setup, e: Engine, force: bool, io: Io, evs: seq<Event>, at: Engine,
                             last: Event, code: int)
    requires Stands(setup, e, force, io, evs, at) && at.state == Cancel
    ensures Negotiation(setup, e, force, io, evs + [last])
            == Negotiation(setup, e, force, io, evs + [last.(code := code)])
  {
    OneMoreAnswer(setup, e, force, io, evs, at, last);
    OneMoreAnswer(setup, e, force, io, evs, at, last.(code := code));
  }

  // ---------------------------------------------------------------- payloads need a go-ahead

  predicate IsPayload(x: Wire) {
    x.Cont? || x.Silent?
  }

  /** The log is as before, or has one entry more, which is a payload only if `asked`. */
  predicate OneMoreEntry(v: seq<Wire>, w: seq<Wire>, asked: bool) {
    w == v || (|w| == |v| + 1 && v <= w && (IsPayload(w[|v|]) ==> asked))
  }

  lemma StartAddsOne(setup: Setup, e: Engine, force: bool, io: Io)
    ensures OneMoreEntry(e.wire, StartStep(setup, e, force, io).engine.wire, false)
  {
  }

  lemma PayloadAddsOne(setup: Setup, e: Engine, io: Io)
    requires IsStation(e.state)
    ensures OneMoreEntry(e.wire, PayloadStep(setup, e, io).engine.wire, true)
  {
  }

  /** One answer adds at most one entry to the log, and a payload only after `contcode`. */
  lemma AnswerAddsOne(setup: Setup, e: Engine, code: int, io: Io)
    ensures OneMoreEntry(e.wire, ContinueStep(setup, e, code, io).engine.wire, code == setup.proto.contcode)
  {
    if e.state == Cancel {
      StartAddsOne(setup, e.(authmechs := Xor(e.authmechs, e.authused)), e.forceIr, io);
    } else if IsStation(e.state) {
      PayloadAddsOne(setup, e, io);
    }
  }

  /** The log of a negotiation after `n` answers. */
  function LogAt(setup: Setup, e: Engine, force: bool, io: Io, evs: seq<Event>, n: nat): seq<Wire>
    requires n <= |evs|
  {
    Negotiation(setup, e, force, io, evs[..n]).engine.wire
  }

  lemma LogGrows(setup: Setup, e: Engine, force: bool, io: Io, evs: seq<Event>, n: nat)
    requires n < |evs|
    ensures var v, w := LogAt(setup, e, force, io, evs, n), LogAt(setup, e, force, io, evs, n + 1);
            OneMoreEntry(v, w, evs[n].code == setup.proto.contcode)
  {
    var before := Negotiation(setup, e, force, io, evs[..n]);
    assert evs[..n + 1] == evs[..n] + [evs[n]];
    if Live(before) {
      OneMoreAnswer(setup, e, force, io, evs[..n], before.engine, evs[n]);
      AnswerAddsOne(setup, before.engine, evs[n].code, evs[n].io);
    } else {
      RunInTwo(setup, StartStep(setup, e, force, io), evs[..n], [evs[n]]);
    }
  }

  lemma StartSaysNothing(setup: Setup, e: Engine, force: bool, io: Io, evs: seq<Event>)
    requires e.wire == []
    ensures forall x | x in LogAt(setup, e, force, io, evs, 0) :: !IsPayload(x)
  {
    assert evs[..0] == [];
  }

  /** In a log that grows entry by entry, a payload was added by a step that was asked for it. */
  lemma {:induction false} EntryHasStep(logs: seq<seq<Wire>>, asked: seq<bool>, n: nat, j: nat) returns (i: nat)
    requires |logs| == |asked| + 1 && n <= |asked| && (forall x | x in logs[0] :: !IsPayload(x))
    requires forall k | 0 <= k < |asked| :: OneMoreEntry(logs[k], logs[k + 1], asked[k])
    requires j < |logs[n]| && IsPayload(logs[n][j])
    ensures i < n && asked[i] && |logs[i]| <= j < |logs[i + 1]|
    decreases n
  {
    assert n > 0;
    i := n - 1;
    assert OneMoreEntry(logs[i], logs[i + 1], asked[i]);
    if j < |logs[i]| {
      i := EntryHasStep(logs, asked, i, j);
    }
  }

  /** The logs after each number of answers, and which answers were a go-ahead. */
  function Logs(setup: Setup, e: Engine, force: bool, io: Io, evs: seq<Event>): (logs: seq<seq<Wire>>)
    ensures |logs| == |evs| + 1
  {
    seq(|evs| + 1, k requires 0 <= k <= |evs| => LogAt(setup, e, force, io, evs, k))
  }

  function Asked(setup: Setup, evs: seq<Event>): (asked: seq<bool>)
    ensures |asked| == |evs| && forall k | 0 <= k < |evs| :: asked[k] <==> evs[k].code == setup.proto.contcode
  {
    seq(|evs|, k requires 0 <= k < |evs| => evs[k].code == setup.proto.contcode)
  }

  lemma LogsGrow(setup: Setup, e: Engine, force: bool, io: Io, evs: seq<Event>)
    requires e.wire == []
    ensures var logs, asked := Logs(setup, e, force, io, evs), Asked(setup, evs);
            && (forall x | x in logs[0] :: !IsPayload(x))
            && (forall k | 0 <= k < |asked| :: OneMoreEntry(logs[k], logs[k + 1], asked[k]))
            && logs[|evs|] == Negotiation(setup, e, force, io, evs).engine.wire
  {
    var logs, asked := Logs(setup, e, force, io, evs), Asked(setup, evs);
    forall k | 0 <= k < |evs| ensures OneMoreEntry(logs[k], logs[k + 1], asked[k]) {
      LogGrows(setup, e, force, io, evs, k);
    }
    StartSaysNothing(setup, e, force, io, evs);
    assert evs[..|evs|] == evs;
  }

  /** Every payload of a negotiation was written while an answer with `contcode` was handled. */
  lemma PayloadsNeedContcode(setup: Setup, e: Engine, force: bool, io: Io, evs: seq<Event>, j: nat) returns (i: nat)
    requires e.wire == [] && j < |Negotiation(setup, e, force, io, evs).engine.wire|
    requires IsPayload(Negotiation(setup, e, force, io, evs).engine.wire[j])
    ensures i < |evs| && evs[i].code == setup.proto.contcode
    ensures |LogAt(setup, e, force, io, evs, i)| <= j < |LogAt(setup, e, force, io, evs, i + 1)|
  {
    var logs := Logs(setup, e, force, io, evs);
    LogsGrow(setup, e, force, io, evs);
    i := EntryHasStep(logs, Asked(setup, evs), |evs|, j);
    assert logs[i] == LogAt(setup, e, force, io, evs, i) && logs[i + 1] == LogAt(setup, e, force, io, evs, i + 1);
  }

  // ---------------------------------------------------------------- initial responses

  /** An initial response is no longer than the protocol allows. */
  predicate Fits(setup: Setup, x: Wire) {
    x.Auth? && x.ir.Some? && setup.proto.maxirlen != 0 ==> |Name(x.mech)| + |x.ir.value| <= setup.proto.maxirlen
  }

  lemma StartFits(setup: Setup, e: Engine, force: bool, io: Io)
    requires forall x | x in e.wire :: Fits(setup, x)
    ensures forall x | x in StartStep(setup, e, force, io).engine.wire :: Fits(setup, x)
  {
  }

  lemma ContinueFits(setup: Setup, e: Engine, code: int, io: Io)
    requires forall x | x in e.wire :: Fits(setup, x)
    ensures forall x | x in ContinueStep(setup, e, code, io).engine.wire :: Fits(setup, x)
  {
    if e.state == Cancel {
      StartFits(setup, e.(authmechs := Xor(e.authmechs, e.authused)), e.forceIr, io);
    }
  }

  lemma {:induction false} RunFits(setup: Setup, s: Step, evs: seq<Event>)
    requires forall x | x in s.engine.wire :: Fits(setup, x)
    ensures forall x | x in Run(setup, s, evs).engine.wire :: Fits(setup, x)
    decreases |evs|
  {
    if Live(s) && evs != [] {
      ContinueFits(setup, s.engine, evs[0].code, evs[0].io);
      RunFits(setup, ContinueStep(setup, s.engine, evs[0].code, evs[0].io), evs[1..]);
    }
  }

  /** No initial response that is too long ever travels with AUTH. */
  lemma InitialResponsesFit(setup: Setup, e: Engine, force: bool, io: Io, evs: seq<Event>)
    requires e.wire == []
    ensures forall x | x in Negotiation(setup, e, force, io, evs).engine.wire :: Fits(setup, x)
  {
    StartFits(setup, e, force, io);
    RunFits(setup, StartStep(setup, e, force, io), evs);
  }

  /** `m` can be chosen, and no mechanism that can be chosen is preferred to it. */
  ghost predicate Foremost(setup: Setup, enabled: set<Mech>, m: Mech) {
    Eligible(setup, enabled, m) && forall p | Eligible(setup, enabled, p) :: Place(m) <= Place(p)
  }

  ghost predicate NoneLeft(setup: Setup, enabled: set<Mech>) {
    forall p :: !Eligible(setup, enabled, p)
  }

  /** The log has one entry more: AUTH with this mechanism. */
  predicate AuthAdded(before: seq<Wire>, after: seq<Wire>, m: Mech) {
    |after| == |before| + 1 && before <= after && after[|before|].Auth? && after[|before|].mech == m
  }

  /** AUTH carries the first payload exactly if it is wanted, the mechanism lets the client begin, and it fits. */
  lemma AuthCarriesExactly(setup: Setup, e: Engine, force: bool, io: Io, m: Mech)
    requires Foremost(setup, e.authmechs * e.prefmech, m) && io.send == OK
    ensures var wanted := (force || setup.conn.saslIr) && m !in {DIGEST_MD5, CRAM_MD5};
            var made := io.make(Script(m, false)[0]);
            var s := StartStep(setup, e, force, io);
            && s.engine.authused == Some(m) && s.engine.forceIr == force
            && (if wanted && made.Refused? then s.code == made.code && s.progress == Idle && s.engine.wire == e.wire
                else
                  && Live(s) && AuthAdded(e.wire, s.engine.wire, m)
                  && forall t ::
                       s.engine.wire[|e.wire|].ir == Some(t) <==>
                         wanted && made == Made(Some(t)) && Fits(setup, Auth(m, Some(t))))
  {
    BestIs(setup, e.authmechs * e.prefmech, Some(m));
  }

  /** Without a mechanism that can be chosen, start does nothing and says so. */
  lemma NothingToStart(setup: Setup, e: Engine, force: bool, io: Io)
    requires NoneLeft(setup, e.authmechs * e.prefmech)
    ensures var s := StartStep(setup, e, force, io);
            s.code == OK && s.progress == Idle && s.engine.wire == e.wire && s.engine.authused == None
  {
    BestIs(setup, e.authmechs * e.prefmech, None);
  }

  // ---------------------------------------------------------------- a challenge that cannot be decoded

  /** The payload that is due. */
  function DuePayload(e: Engine): Option<Payload> {
    if e.authused.Some? && |Dialogue(e.wire)| < |Script(e.authused.value, false)|
    then Some(Script(e.authused.value, false)[|Dialogue(e.wire)|]) else None
  }

  lemma DueIs(setup: Setup, e: Engine)
    requires Inv(setup, e) && IsStation(e.state)
    ensures DuePayload(e) == Some(Script(e.authused.value, e.mutual)[PositionOf(e.state)])
    ensures Compiled(setup.build, MechOf(e.state)) && MutualAt(e.state, e.mutual) == e.mutual
    ensures MechOf(e.state) == e.authused.value && PositionOf(e.state) == |Dialogue(e.wire)|
  {
    assert Script(e.authused.value, e.mutual) == Script(e.authused.value, false);
  }

  /** `contcode` in a dialogue: the payload that is due goes out, or the exact failure ends the negotiation. */
  lemma GoAheadSays(setup: Setup, e: Engine, force: bool, io: Io, evs: seq<Event>, at: Engine, last: Event)
    requires StandsHonestly(setup, e, force, io, evs, at) && IsStation(at.state)
    requires last.code == setup.proto.contcode
    ensures DuePayload(at).Some?
    ensures var kind, after := DuePayload(at).value, Negotiation(setup, e, force, io, evs + [last]);
            match last.io.make(kind)
            case Made(Some(t)) =>
              && after.code == last.io.send
              && after.engine.wire == if last.io.send == OK then at.wire + [Cont(kind, t)] else at.wire
            case Made(None) => Live(after) && after.engine.wire == at.wire + [Silent(kind)]
            case Refused(c) =>
              c != BadContentEncoding ==>
                after.code == c && after.progress == Done && after.engine == at.(state := Stop)
  {
    NegotiationKeeps(setup, e, force, io, evs);
    OneMoreAnswer(setup, e, force, io, evs, at, last);
    DueIs(setup, at);
  }

  /** CURLE_BAD_CONTENT_ENCODING: "*" goes out, and the dialogue is cancelled even if it cannot be sent. */
  lemma BadChallengeIsCancelled(setup: Setup, e: Engine, force: bool, io: Io, evs: seq<Event>, at: Engine, last: Event)
    requires StandsHonestly(setup, e, force, io, evs, at) && IsStation(at.state)
    requires last.code == setup.proto.contcode
    requires DuePayload(at).Some? && last.io.make(DuePayload(at).value) == Refused(BadContentEncoding)
    ensures var after := Negotiation(setup, e, force, io, evs + [last]);
            && after.code == last.io.send && after.progress == InProgress
            && after.engine == at.(state := Cancel, wire := if last.io.send == OK then at.wire + [Star] else at.wire)
  {
    NegotiationKeeps(setup, e, force, io, evs);
    OneMoreAnswer(setup, e, force, io, evs, at, last);
    DueIs(setup, at);
  }

  /** The mechanisms that are left when the one in use is given up. */
  function Others(e: Engine): set<Mech> {
    e.authmechs - if e.authused.Some? then {e.authused.value} else {}
  }

  lemma CancelRestarts(setup: Setup, e: Engine, code: int, io: Io, m: Mech)
    requires Inv(setup, e) && e.state == Cancel && io.send == OK
    requires Foremost(setup, Others(e) * e.prefmech, m) && io.make(Script(m, false)[0]).Made?
    ensures var s := ContinueStep(setup, e, code, io);
            Live(s) && s.engine.authused == Some(m) && s.engine.authmechs == Others(e)
            && AuthAdded(e.wire, s.engine.wire, m)
  {
    CancelClears(setup, e);
    AuthCarriesExactly(setup, e.(authmechs := Others(e)), e.forceIr, io, m);
  }

  /** What is left after a cancel comes after the mechanism that was given up. */
  lemma OthersComeLater(setup: Setup, e: Engine, m: Mech)
    requires Inv(setup, e) && e.state == Cancel && Eligible(setup, Others(e) * e.prefmech, m)
    ensures Place(e.authused.value) < Place(m)
  {
    CancelClears(setup, e);
    var tried := Attempts(e.wire);
    assert Eligible(setup, Xor(e.authmechs, e.authused) * e.prefmech, m) && tried[|tried| - 1] == e.authused.value;
  }

  /** After the "*" the mechanism is dropped, and the best one of the others gets its AUTH. */
  lemma CancelTriesTheNext(setup: Setup, e: Engine, force: bool, io: Io, evs: seq<Event>, at: Engine,
                           last: Event, m: Mech)
    requires StandsHonestly(setup, e, force, io, evs, at) && at.state == Cancel && last.io.send == OK
    requires Foremost(setup, Others(at) * at.prefmech, m) && last.io.make(Script(m, false)[0]).Made?
    ensures var after := Negotiation(setup, e, force, io, evs + [last]);
            && Live(after) && after.engine.authused == Some(m) && after.engine.authmechs == Others(at)
            && at.authused.Some? && Place(at.authused.value) < Place(m)
            && AuthAdded(at.wire, after.engine.wire, m)
  {
    NegotiationKeeps(setup, e, force, io, evs);
    OneMoreAnswer(setup, e, force, io, evs, at, last);
    CancelRestarts(setup, at, last.code, last.io, m);
    OthersComeLater(setup, at, m);
  }

  /** Why the start of `m` fails, if it does: its first payload cannot be created, or AUTH cannot be sent. */
  function StartFailure(setup: Setup, force: bool, io: Io, m: Mech): Code {
    var wanted, made := (force || setup.conn.saslIr) && m !in {DIGEST_MD5, CRAM_MD5}, io.make(Script(m, false)[0]);
    if wanted && made.Refused? then made.code else io.send
  }

  lemma StartFails(setup: Setup, e: Engine, force: bool, io: Io, m: Mech)
    requires Foremost(setup, e.authmechs * e.prefmech, m) && StartFailure(setup, force, io, m) != OK
    ensures var s := StartStep(setup, e, force, io);
            s.code == StartFailure(setup, force, io, m) && s.progress == Idle && s.engine.wire == e.wire
  {
    BestIs(setup, e.authmechs * e.prefmech, Some(m));
  }

  lemma CancelStops(setup: Setup, e: Engine, code: int, io: Io, m: Mech)
    requires Inv(setup, e) && e.state == Cancel && Honest(io)
    requires Foremost(setup, Others(e) * e.prefmech, m) && StartFailure(setup, e.forceIr, io, m) != OK
    ensures var s := ContinueStep(setup, e, code, io);
            && s.code == StartFailure(setup, e.forceIr, io, m) && s.progress == Done
            && s.engine.state == Stop && s.engine.wire == e.wire
  {
    CancelClears(setup, e);
    StartEstablishes(setup, e.(authmechs := Others(e)), e.forceIr, io);
    StartFails(setup, e.(authmechs := Others(e)), e.forceIr, io, m);
  }

  /** If the next mechanism cannot be started, the negotiation ends with that failure. */
  lemma CancelFailsToStart(setup: Setup, e: Engine, force: bool, io: Io, evs: seq<Event>, at: Engine,
                           last: Event, m: Mech)
    requires StandsHonestly(setup, e, force, io, evs, at) && at.state == Cancel && Honest(last.io)
    requires Foremost(setup, Others(at) * at.prefmech, m) && StartFailure(setup, at.forceIr, last.io, m) != OK
    ensures var after := Negotiation(setup, e, force, io, evs + [last]);
            && after.code == StartFailure(setup, at.forceIr, last.io, m) && after.progress == Done
            && after.engine.state == Stop && after.engine.wire == at.wire
  {
    NegotiationKeeps(setup, e, force, io, evs);
    OneMoreAnswer(setup, e, force, io, evs, at, last);
    CancelStops(setup, at, last.code, last.io, m);
  }

  lemma CancelGivesUp(setup: Setup, e: Engine, code: int, io: Io)
    requires Inv(setup, e) && e.state == Cancel && NoneLeft(setup, Others(e) * e.prefmech)
    ensures var s := ContinueStep(setup, e, code, io);
            s.code == OK && s.progress == Idle && s.engine.wire == e.wire
  {
    CancelClears(setup, e);
    NothingToStart(setup, e.(authmechs := Others(e)), e.forceIr, io);
  }

  /** With no other mechanism left, the negotiation is over without a verdict. */
  lemma CancelFindsNoOther(setup: Setup, e: Engine, force: bool, io: Io, evs: seq<Event>, at: Engine, last: Event)
    requires StandsHonestly(setup, e, force, io, evs, at) && at.state == Cancel
    requires NoneLeft(setup, Others(at) * at.prefmech)
    ensures var after := Negotiation(setup, e, force, io, evs + [last]);
            after.code == OK && after.progress == Idle && after.engine.wire == at.wire
  {
    NegotiationKeeps(setup, e, force, io, evs);
    OneMoreAnswer(setup, e, force, io, evs, at, last);
    CancelGivesUp(setup, at, last.code, last.io);
  }

  // ---------------------------------------------------------------- success can be had

  /** Every message is created and sent. */
  ghost predicate Helpful(io: Io) {
    io.send == OK && forall p :: io.make(p).Made?
  }

  /** The server asks for the next payload. */
  ghost predicate GoesAhead(setup: Setup, evs: seq<Event>) {
    forall ev | ev in evs :: ev.code == setup.proto.contcode && Honest(ev.io) && Helpful(ev.io)
  }

  lemma StationOrFinal(setup: Setup, e: Engine)
    requires Inv(setup, e) && e.state != Cancel
    ensures |Dialogue(e.wire)| <= |Script(e.authused.value, false)|
    ensures e.state == Final <==> |Dialogue(e.wire)| == |Script(e.authused.value, false)|
    ensures e.state != Final <==> IsStation(e.state)
  {
    assert Script(e.authused.value, e.mutual) == Script(e.authused.value, false);
  }

  lemma GoAheadAdds(setup: Setup, e: Engine, ev: Event)
    requires Inv(setup, e) && IsStation(e.state) && GoesAhead(setup, [ev])
    ensures var s := ContinueStep(setup, e, ev.code, ev.io);
            && Live(s) && s.engine.state != Cancel && s.engine.authused == e.authused
            && exists x :: IsPayload(x) && s.engine.wire == e.wire + [x]
  {
    assert ev in [ev];
    DueIs(setup, e);
    var kind, s := DuePayload(e).value, ContinueStep(setup, e, ev.code, ev.io);
    var x := if ev.io.make(kind).text.Some? then Cont(kind, ev.io.make(kind).text.value) else Silent(kind);
    assert IsPayload(x) && s.engine.wire == e.wire + [x];
  }

  /** One payload more, on the same mechanism. */
  lemma GoAheadSendsOne(setup: Setup, e: Engine, ev: Event)
    requires Inv(setup, e) && IsStation(e.state) && GoesAhead(setup, [ev])
    ensures var s := ContinueStep(setup, e, ev.code, ev.io);
            && Live(s) && Inv(setup, s.engine) && s.engine.state != Cancel && s.engine.authused == e.authused
            && |Dialogue(s.engine.wire)| == |Dialogue(e.wire)| + 1
  {
    assert ev in [ev];
    GoAheadAdds(setup, e, ev);
    ContinueKeeps(setup, e, ev.code, ev.io);
    var x :| IsPayload(x) && ContinueStep(setup, e, ev.code, ev.io).engine.wire == e.wire + [x];
    Append(e.wire, x);
  }

  lemma {:induction false} GoAheadsSendAll(setup: Setup, s: Step, evs: seq<Event>)
    requires Live(s) && Inv(setup, s.engine) && s.engine.state != Cancel && GoesAhead(setup, evs)
    requires |Dialogue(s.engine.wire)| + |evs| == |Script(s.engine.authused.value, false)|
    ensures var r := Run(setup, s, evs);
            && Live(r) && Inv(setup, r.engine) && r.engine.authused == s.engine.authused && r.engine.state == Final
    decreases |evs|
  {
    StationOrFinal(setup, s.engine);
    if evs != [] {
      assert evs[0] in evs;
      assert GoesAhead(setup, [evs[0]]) && GoesAhead(setup, evs[1..]);
      GoAheadSendsOne(setup, s.engine, evs[0]);
      GoAheadsSendAll(setup, ContinueStep(setup, s.engine, evs[0].code, evs[0].io), evs[1..]);
    }
  }

  /** A server that asks for every payload and then grants the login gets the script of the best mechanism. */
  lemma CooperationSucceeds(setup: Setup, e: Engine, force: bool, io: Io, evs: seq<Event>, last: Event, m: Mech)
    requires e.wire == [] && Honest(io) && Helpful(io) && Foremost(setup, e.authmechs * e.prefmech, m)
    requires GoesAhead(setup, evs) && last.code == setup.proto.finalcode
    requires |Dialogue(StartStep(setup, e, force, io).engine.wire)| + |evs| == |Script(m, false)|
    ensures var r := Negotiation(setup, e, force, io, evs + [last]);
            && r.code == OK && r.progress == Done && r.engine.authused == Some(m)
            && Dialogue(r.engine.wire) == Script(m, false)
            && (m == LOGIN ==> Dialogue(r.engine.wire) == [UserName, Password])
            && (m == NTLM ==> Dialogue(r.engine.wire) == [NtlmType1, NtlmType3])
            && (m == GSSAPI ==> Dialogue(r.engine.wire) == [GssUserToken, GssSecurity])
            && (m == DIGEST_MD5 ==> Dialogue(r.engine.wire) == [DigestResponse, DigestAck])
  {
    AuthCarriesExactly(setup, e, force, io, m);
    StartEstablishes(setup, e, force, io);
    GoAheadsSendAll(setup, StartStep(setup, e, force, io), evs);
    var r := Negotiation(setup, e, force, io, evs).engine;
    VerdictEnds(setup, e, force, io, evs, r, last);
    assert Script(m, r.mutual) == Script(m, false);
  }

  // ---------------------------------------------------------------- what is tried

  /** The mechanism was offered and enabled, or there is a bearer token for it, and there are credentials for it. */
  predicate MayBeTried(setup: Setup, offered: set<Mech>, m: Mech) {
    && (m in offered || (m == XOAUTH2 && setup.conn.bearer.Some?))
    && (if m == EXTERNAL then setup.conn.passwd == "" else setup.conn.userPasswd)
  }

  predicate TriesAllowed(setup: Setup, offered: set<Mech>, w: seq<Wire>) {
    forall x | x in w && x.Auth? :: MayBeTried(setup, offered, x.mech)
  }

  lemma StartTriesAllowed(setup: Setup, e: Engine, force: bool, io: Io, offered: set<Mech>)
    requires e.authmechs * e.prefmech <= offered && TriesAllowed(setup, offered, e.wire)
    ensures var s := StartStep(setup, e, force, io).engine;
            TriesAllowed(setup, offered, s.wire) && s.authmechs * s.prefmech <= offered
  {
  }

  lemma CancelTriesAllowed(setup: Setup, e: Engine, code: int, io: Io, offered: set<Mech>)
    requires Inv(setup, e) && e.state == Cancel && Honest(io)
    requires e.authmechs * e.prefmech <= offered && TriesAllowed(setup, offered, e.wire)
    ensures var s := ContinueStep(setup, e, code, io).engine;
            TriesAllowed(setup, offered, s.wire) && s.authmechs * s.prefmech <= offered
  {
    CancelClears(setup, e);
    StartEstablishes(setup, e.(authmechs := Others(e)), e.forceIr, io);
    StartTriesAllowed(setup, e.(authmechs := Others(e)), e.forceIr, io, offered);
  }

  lemma ContinueTriesAllowed(setup: Setup, e: Engine, code: int, io: Io, offered: set<Mech>)
    requires Inv(setup, e) && Honest(io) && e.authmechs * e.prefmech <= offered && TriesAllowed(setup, offered, e.wire)
    ensures var s := ContinueStep(setup, e, code, io).engine;
            TriesAllowed(setup, offered, s.wire) && s.authmechs * s.prefmech <= offered
  {
    if e.state == Cancel {
      CancelTriesAllowed(setup, e, code, io, offered);
    } else if IsStation(e.state) {
      var r := Reply(setup.build, e.state, e.mutual, io);
      assert r.entry.Some? ==> !r.entry.value.Auth?;
    }
  }

  lemma {:induction false} RunTriesAllowed(setup: Setup, s: Step, evs: seq<Event>, offered: set<Mech>)
    requires AllHonest(evs) && (Live(s) ==> Inv(setup, s.engine))
    requires s.engine.authmechs * s.engine.prefmech <= offered && TriesAllowed(setup, offered, s.engine.wire)
    ensures TriesAllowed(setup, offered, Run(setup, s, evs).engine.wire)
    decreases |evs|
  {
    if Live(s) && evs != [] {
      ContinueKeeps(setup, s.engine, evs[0].code, evs[0].io);
      ContinueTriesAllowed(setup, s.engine, evs[0].code, evs[0].io, offered);
      RunTriesAllowed(setup, ContinueStep(setup, s.engine, evs[0].code, evs[0].io), evs[1..], offered);
    }
  }

  /** In no negotiation is a mechanism tried that was not offered and enabled, or for which credentials are missing. */
  lemma OnlyAllowedAreTried(setup: Setup, e: Engine, force: bool, io: Io, evs: seq<Event>)
    requires e.wire == [] && Honest(io) && AllHonest(evs)
    ensures TriesAllowed(setup, e.authmechs * e.prefmech, Negotiation(setup, e, force, io, evs).engine.wire)
  {
    StartEstablishes(setup, e, force, io);
    StartTriesAllowed(setup, e, force, io, e.authmechs * e.prefmech);
    RunTriesAllowed(setup, StartStep(setup, e, force, io), evs, e.authmechs * e.prefmech);
  }

  lemma StartUsesTheBest(setup: Setup, e: Engine, force: bool, io: Io)
    ensures StartStep(setup, e, force, io).engine.authused == Best(setup, e.authmechs * e.prefmech)
  {
  }

  lemma NotPassedOver(setup: Setup, enabled: set<Mech>, m: Mech)
    ensures Eligible(setup, enabled, m) ==>
              Best(setup, enabled).Some? && Place(Best(setup, enabled).value) <= Place(m)
  {
    var best := Best(setup, enabled);
    assert best.None? ==> 0 <= Place(m) && !Eligible(setup, enabled, m);
  }

  /** Passwords in the clear come last: LOGIN and PLAIN are chosen only when nothing else can be used. */
  lemma PlaintextIsLast(setup: Setup, e: Engine, force: bool, io: Io)
    requires setup.conn.userPasswd
    ensures var used, enabled := StartStep(setup, e, force, io).engine.authused, e.authmechs * e.prefmech;
            && (GSSAPI in enabled && setup.build.kerberos5 ==> used in {Some(EXTERNAL), Some(GSSAPI)})
            && (DIGEST_MD5 in enabled && setup.build.cryptoAuth ==>
                  used in {Some(EXTERNAL), Some(GSSAPI), Some(DIGEST_MD5)})
            && (CRAM_MD5 in enabled && setup.build.cryptoAuth ==>
                  used in {Some(EXTERNAL), Some(GSSAPI), Some(DIGEST_MD5), Some(CRAM_MD5)})
            && (NTLM in enabled && setup.build.ntlm ==> used !in {None, Some(XOAUTH2), Some(LOGIN), Some(PLAIN)})
            && (XOAUTH2 in enabled || setup.conn.bearer.Some? ==> used !in {None, Some(LOGIN), Some(PLAIN)})
            && (LOGIN in enabled ==> used !in {None, Some(PLAIN)}) && (PLAIN in enabled ==> used != None)
  {
    StartUsesTheBest(setup, e, force, io);
    NotPassedOver(setup, e.authmechs * e.prefmech, GSSAPI);
    NotPassedOver(setup, e.authmechs * e.prefmech, DIGEST_MD5);
    NotPassedOver(setup, e.authmechs * e.prefmech, CRAM_MD5);
    NotPassedOver(setup, e.authmechs * e.prefmech, NTLM);
    NotPassedOver(setup, e.authmechs * e.prefmech, XOAUTH2);
    NotPassedOver(setup, e.authmechs * e.prefmech, LOGIN);
    NotPassedOver(setup, e.authmechs * e.prefmech, PLAIN);
  }
}
