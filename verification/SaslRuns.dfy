/** Whole SASL negotiations against an arbitrary server: termination, safety, initial responses. */
module SaslRuns {
  import opened Basics
  import opened Sasl

  /** One server answer and the world in which the client reacts to it. */
  datatype Event = Event(code: int, io: Io)

  /** The caller keeps feeding answers while the engine reports success and progress. */
  predicate Live(s: Step) {
    s.code == OK && s.progress == InProgress
  }

  function Run(setup: Setup, s: Step, evs: seq<Event>): Step
    decreases |evs|
  {
    if !Live(s) || evs == [] then s
    else Run(setup, ContinueStep(setup, s.engine, evs[0].code, evs[0].io), evs[1..])
  }

  lemma RunOne(setup: Setup, s: Step, ev: Event, rest: seq<Event>)
    requires Live(s)
    ensures Run(setup, s, [ev] + rest) == Run(setup, ContinueStep(setup, s.engine, ev.code, ev.io), rest)
  {
    assert ([ev] + rest)[1..] == rest;
  }

  lemma {:induction false} RunInTwo(setup: Setup, s: Step, before: seq<Event>, after: seq<Event>)
    ensures Run(setup, s, before + after) == Run(setup, Run(setup, s, before), after)
    decreases |before|
  {
    if before == [] {
      assert before + after == after;
    } else if Live(s) {
      assert before + after == [before[0]] + (before[1..] + after);
      RunOne(setup, s, before[0], before[1..] + after);
      RunInTwo(setup, ContinueStep(setup, s.engine, before[0].code, before[0].io), before[1..], after);
    }
  }

  /** Creators that decode a server challenge; only these report CURLE_BAD_CONTENT_ENCODING. */
  predicate Decodes(p: Payload) {
    p in {CramResponse, DigestResponse, NtlmType3, GssReplyToken, GssSecurity}
  }

  predicate Honest(io: Io) {
    && io.send != BadContentEncoding
    && forall p ::
         && (io.make(p) == Refused(BadContentEncoding) ==> Decodes(p))
         && (io.make(p) == Made(None) ==> p in {GssUserToken, GssReplyToken})
  }

  ghost predicate AllHonest(evs: seq<Event>) {
    forall i | 0 <= i < |evs| :: Honest(evs[i].io)
  }

  /** The payload an entry of the wire log carries. */
  function Said(x: Wire): seq<Payload> {
    match x
    case Auth(m, ir) => if ir.Some? then [Script(m, false)[0]] else []
    case Cont(k, _) => [k]
    case Silent(k) => [k]
    case Star => []
  }

  /** Payloads produced since the last AUTH. */
  function Dialogue(w: seq<Wire>): seq<Payload> {
    if w == [] then []
    else if w[|w| - 1].Auth? then Said(w[|w| - 1])
    else Dialogue(w[..|w| - 1]) + Said(w[|w| - 1])
  }

  /** Mechanisms tried, oldest first. */
  function Attempts(w: seq<Wire>): seq<Mech> {
    if w == [] then []
    else
      var before := Attempts(w[..|w| - 1]);
      if w[|w| - 1].Auth? then before + [w[|w| - 1].mech] else before
  }

  ghost predicate Descending(ms: seq<Mech>) {
    forall i, j | 0 <= i < j < |ms| :: Place(ms[i]) < Place(ms[j])
  }

  lemma DescendingIsDistinct(ms: seq<Mech>)
    requires Descending(ms)
    ensures forall i, j | 0 <= i < j < |ms| :: ms[i] != ms[j]
  {
  }

  lemma Append(w: seq<Wire>, x: Wire)
    ensures Attempts(w + [x]) == Attempts(w) + if x.Auth? then [x.mech] else []
    ensures Dialogue(w + [x]) == (if x.Auth? then [] else Dialogue(w)) + Said(x)
  {
    assert (w + [x])[..|w|] == w;
  }

  lemma AppendNoAuth(w: seq<Wire>, x: Wire)
    requires !x.Auth?
    ensures Attempts(w + [x]) == Attempts(w)
  {
    Append(w, x);
  }

  // ---------------------------------------------------------------- the invariant

  /** No mechanism that is still eligible is preferred to `m`. */
  ghost predicate Foremost(setup: Setup, e: Engine, m: Mech) {
    forall p | Eligible(setup, e.authmechs * e.prefmech, p) :: Place(m) <= Place(p)
  }

  /** How far the dialogue of the mechanism in use has come. */
  ghost predicate OnScript(e: Engine, m: Mech) {
    if e.state == Stop then false
    else if e.state == Cancel then m in e.authmechs && m != XOAUTH2
    else if e.state == Final then Dialogue(e.wire) == Script(m, e.mutual)
    else
      && MechOf(e.state) == m && e.state != GssApiNoData
      && PositionOf(e.state) < |Script(m, e.mutual)|
      && Dialogue(e.wire) == Script(m, e.mutual)[..PositionOf(e.state)]
  }

  /** What no payload changes: the mechanism in use is the last tried and the best one left. */
  ghost predicate Steady(setup: Setup, e: Engine, m: Mech) {
    && e.authused == Some(m)
    && Compiled(setup.build, m)
    && (m == GSSAPI ==> !e.mutual)
    && (m != XOAUTH2 ==> m in e.authmechs)
    && Foremost(setup, e, m)
    && Descending(Attempts(e.wire))
    && Attempts(e.wire) != [] && Attempts(e.wire)[|Attempts(e.wire)| - 1] == m
  }

  ghost predicate Inv(setup: Setup, e: Engine) {
    e.authused.Some? && Steady(setup, e, e.authused.value) && OnScript(e, e.authused.value)
  }

  /** Whatever start can choose comes after everything tried before. */
  ghost predicate Fresh(setup: Setup, e: Engine) {
    var tried := Attempts(e.wire);
    && Descending(tried)
    && forall p, i | Eligible(setup, e.authmechs * e.prefmech, p) && 0 <= i < |tried| :: Place(tried[i]) < Place(p)
  }

  /** AUTH puts the engine at the payload that is due next. */
  lemma OpensOnScript(e: Engine, m: Mech, ir: Option<Text>)
    requires m == GSSAPI ==> !e.mutual
    ensures var e' := e.(state := StationAt(m, e.mutual, if ir.Some? then 1 else 0), wire := e.wire + [Auth(m, ir)]);
            OnScript(e', m) && e'.state != Cancel && Attempts(e'.wire) == Attempts(e.wire) + [m]
  {
    var k := if ir.Some? then 1 else 0;
    Append(e.wire, Auth(m, ir));
    assert Script(m, e.mutual)[..1] == [Script(m, false)[0]];
    if k < |Script(m, e.mutual)| {
      StationsLocate(m, e.mutual, k);
    } else {
      assert Script(m, e.mutual)[..1] == Script(m, e.mutual);
    }
  }

  lemma OpensSteady(setup: Setup, e: Engine, e': Engine, m: Mech)
    requires Fresh(setup, e) && Best(setup, e.authmechs * e.prefmech) == Some(m)
    requires e'.authused == Some(m) && e'.authmechs == e.authmechs && e'.prefmech == e.prefmech
    requires m == GSSAPI ==> !e'.mutual
    requires Attempts(e'.wire) == Attempts(e.wire) + [m]
    ensures Steady(setup, e', m)
  {
  }

  lemma StartEstablishes(setup: Setup, e: Engine, force: bool, io: Io)
    requires Fresh(setup, e) && Honest(io)
    ensures var s := StartStep(setup, e, force, io);
            && s.code != BadContentEncoding
            && s.engine.authmechs == e.authmechs
            && (Live(s) ==> Inv(setup, s.engine) && s.engine.state != Cancel)
  {
    var s := StartStep(setup, e, force, io);
    if Live(s) {
      var m := Best(setup, e.authmechs * e.prefmech).value;
      var x := s.engine.wire[|e.wire|];
      var mutual := if m == GSSAPI then false else e.mutual;
      OpensOnScript(e.(forceIr := force, authused := Some(m), mutual := mutual), m, x.ir);
      OpensSteady(setup, e, s.engine, m);
    }
  }

  /** Cancel is entered with the mechanism in use among `authmechs`, so `^=` clears it. */
  lemma CancelClears(setup: Setup, e: Engine)
    requires Inv(setup, e) && e.state == Cancel
    ensures Xor(e.authmechs, e.authused) == e.authmechs - {e.authused.value}
    ensures |Xor(e.authmechs, e.authused)| == |e.authmechs| - 1
    ensures Fresh(setup, e.(authmechs := Xor(e.authmechs, e.authused)))
  {
    var m := e.authused.value;
    var e' := e.(authmechs := e.authmechs - {m});
    var tried := Attempts(e.wire);
    forall p, i | Eligible(setup, e'.authmechs * e'.prefmech, p) && 0 <= i < |tried|
      ensures Place(tried[i]) < Place(p)
    {
      assert Eligible(setup, e.authmechs * e.prefmech, p);
      assert Preference()[Place(p)] == p && Preference()[Place(m)] == m;
      assert p != m;
      assert i < |tried| - 1 ==> Place(tried[i]) < Place(tried[|tried| - 1]);
    }
  }

  /** Payloads still due, counting the final verdict. */
  function Stage(e: Engine): nat {
    if e.state == Cancel then 0
    else if e.state == Stop || e.state == Final then 1
    else if PositionOf(e.state) < 3 then 4 - PositionOf(e.state) else 0
  }

  /** Mechanisms left to cancel, then payloads left in this dialogue. */
  function Rank(e: Engine): nat {
    5 * |e.authmechs| + Stage(e)
  }

  lemma OneMore<T>(s: seq<T>, k: nat)
    requires k < |s|
    ensures s[..k] + [s[k]] == s[..k + 1]
  {
  }

  lemma WholeSlice<T>(s: seq<T>, n: nat)
    requires n == |s|
    ensures s[..n] == s
  {
  }

  lemma DialogueGrows(e: Engine, m: Mech, w: Wire)
    requires IsStation(e.state) && OnScript(e, m) && (w.Cont? || w.Silent?)
    requires w.kind == Script(m, e.mutual)[PositionOf(e.state)]
    ensures Dialogue(e.wire + [w]) == Script(m, e.mutual)[..PositionOf(e.state) + 1]
  {
    Append(e.wire, w);
    OneMore(Script(m, e.mutual), PositionOf(e.state));
  }

  lemma InnerStation(e: Engine, m: Mech, w: Wire)
    requires IsStation(e.state) && OnScript(e, m) && (w.Cont? || w.Silent?)
    requires w.kind == Script(m, e.mutual)[PositionOf(e.state)] && (m == GSSAPI ==> !e.mutual)
    requires PositionOf(e.state) + 1 < |Script(m, e.mutual)|
    ensures var e' := e.(state := StationAt(m, e.mutual, PositionOf(e.state) + 1), wire := e.wire + [w]);
            OnScript(e', m) && Stage(e') < Stage(e) && e'.state != Cancel
  {
    DialogueGrows(e, m, w);
    StationsLocate(m, e.mutual, PositionOf(e.state) + 1);
  }

  lemma LastStation(e: Engine, m: Mech, w: Wire)
    requires IsStation(e.state) && OnScript(e, m) && (w.Cont? || w.Silent?)
    requires w.kind == Script(m, e.mutual)[PositionOf(e.state)]
    requires PositionOf(e.state) + 1 == |Script(m, e.mutual)|
    ensures var e' := e.(state := Final, wire := e.wire + [w]);
            OnScript(e', m) && Stage(e') < Stage(e)
  {
    DialogueGrows(e, m, w);
    WholeSlice(Script(m, e.mutual), PositionOf(e.state) + 1);
  }

  lemma NextStation(e: Engine, m: Mech, w: Wire)
    requires IsStation(e.state) && OnScript(e, m) && (w.Cont? || w.Silent?)
    requires w.kind == Script(m, e.mutual)[PositionOf(e.state)] && (m == GSSAPI ==> !e.mutual)
    ensures var e' := e.(state := StationAt(m, e.mutual, PositionOf(e.state) + 1), wire := e.wire + [w]);
            OnScript(e', m) && Stage(e') < Stage(e) && e'.state != Cancel
  {
    if PositionOf(e.state) + 1 < |Script(m, e.mutual)| {
      InnerStation(e, m, w);
    } else {
      LastStation(e, m, w);
    }
  }

  /** A payload or a "*" changes the state and the log only. */
  lemma SteadyFrame(setup: Setup, e: Engine, state: State, w: Wire)
    requires Inv(setup, e) && !w.Auth?
    ensures var e' := e.(state := state, wire := e.wire + [w]);
            e'.authused == e.authused && Steady(setup, e', e.authused.value)
  {
    AppendNoAuth(e.wire, w);
  }

  lemma DecodersAreNotBearer(m: Mech, mutual: bool, k: nat)
    requires k < |Script(m, mutual)| && Decodes(Script(m, mutual)[k])
    ensures m != XOAUTH2
  {
  }

  lemma RefusalKeeps(setup: Setup, e: Engine, io: Io)
    requires Inv(setup, e) && IsStation(e.state) && io.send == OK
    requires Decodes(Script(e.authused.value, e.mutual)[PositionOf(e.state)])
    ensures Inv(setup, Cancelled(e, io, InProgress).engine)
  {
    SteadyFrame(setup, e, Cancel, Star);
    DecodersAreNotBearer(e.authused.value, e.mutual, PositionOf(e.state));
  }

  lemma MessageKeeps(setup: Setup, e: Engine, w: Wire)
    requires Inv(setup, e) && IsStation(e.state) && (w.Cont? || w.Silent?)
    requires w.kind == Script(e.authused.value, e.mutual)[PositionOf(e.state)]
    ensures var m := e.authused.value;
            var e' := e.(state := StationAt(m, e.mutual, PositionOf(e.state) + 1), wire := e.wire + [w]);
            Inv(setup, e') && Rank(e') < Rank(e)
  {
    NextStation(e, e.authused.value, w);
    SteadyFrame(setup, e, StationAt(e.authused.value, e.mutual, PositionOf(e.state) + 1), w);
  }

  lemma PayloadKeeps(setup: Setup, e: Engine, io: Io)
    requires Inv(setup, e) && Honest(io) && IsStation(e.state)
    ensures var s := PayloadStep(setup, e, io);
            && !(s.code == OK && s.progress == Done)
            && (Live(s) ==> Inv(setup, s.engine) && Rank(s.engine) < Rank(e))
  {
    var kind := Script(e.authused.value, e.mutual)[PositionOf(e.state)];
    match io.make(kind) {
      case Refused(c) =>
        if c == BadContentEncoding && io.send == OK {
          RefusalKeeps(setup, e, io);
        }
      case Made(text) =>
        MessageKeeps(setup, e, if text.Some? then Cont(kind, text.value) else Silent(kind));
    }
  }

  lemma CancelKeeps(setup: Setup, e: Engine, code: int, io: Io)
    requires Inv(setup, e) && Honest(io) && e.state == Cancel
    ensures var s := ContinueStep(setup, e, code, io);
            && !(s.code == OK && s.progress == Done)
            && (Live(s) ==> Inv(setup, s.engine) && Rank(s.engine) < Rank(e))
  {
    CancelClears(setup, e);
    StartEstablishes(setup, e.(authmechs := Xor(e.authmechs, e.authused)), e.forceIr, io);
  }

  /** Each continue step that leaves the run going keeps the invariant and lowers the rank. */
  lemma ContinueKeeps(setup: Setup, e: Engine, code: int, io: Io)
    requires Inv(setup, e) && Honest(io)
    ensures var s := ContinueStep(setup, e, code, io);
            Live(s) ==> Inv(setup, s.engine) && Rank(s.engine) < Rank(e)
  {
    if e.state == Cancel {
      CancelKeeps(setup, e, code, io);
    } else if IsStation(e.state) {
      PayloadKeeps(setup, e, io);
    }
  }

  lemma {:induction false} RunKeeps(setup: Setup, s: Step, evs: seq<Event>)
    requires AllHonest(evs)
    requires Live(s) ==> Inv(setup, s.engine)
    ensures var r := Run(setup, s, evs);
            Live(r) ==> Inv(setup, r.engine) && Live(s) && Rank(r.engine) + |evs| <= Rank(s.engine)
    decreases |evs|
  {
    if Live(s) && evs != [] {
      ContinueKeeps(setup, s.engine, evs[0].code, evs[0].io);
      assert evs[0] in evs;
      RunKeeps(setup, ContinueStep(setup, s.engine, evs[0].code, evs[0].io), evs[1..]);
    }
  }

  /** A negotiation, from Curl_sasl_start on. */
  function Negotiation(setup: Setup, e: Engine, force: bool, io: Io, evs: seq<Event>): Step {
    Run(setup, StartStep(setup, e, force, io), evs)
  }

  lemma NegotiationKeeps(setup: Setup, e: Engine, force: bool, io: Io, evs: seq<Event>)
    requires e.wire == [] && Honest(io) && AllHonest(evs)
    ensures var r := Negotiation(setup, e, force, io, evs);
            Live(r) ==> Inv(setup, r.engine) && Rank(r.engine) + |evs| <= 5 * |e.authmechs| + 4
  {
    StartEstablishes(setup, e, force, io);
    RunKeeps(setup, StartStep(setup, e, force, io), evs);
  }

  /** Termination: whatever the server sends, five answers a mechanism and four more end it. */
  lemma NegotiationsEnd(setup: Setup, e: Engine, force: bool, io: Io, evs: seq<Event>)
    requires e.wire == [] && Honest(io) && AllHonest(evs)
    requires |evs| >= 5 * |e.authmechs| + 4
    ensures !Live(Negotiation(setup, e, force, io, evs))
  {
    NegotiationKeeps(setup, e, force, io, evs);
    var r := Negotiation(setup, e, force, io, evs);
    if Live(r) {
      CancelClears(setup, r.engine);
    }
  }

  /** Safety: the call that reports success got `finalcode` after the complete script of the mechanism in use. */
  lemma SuccessNeedsTheWholeScript(setup: Setup, e: Engine, force: bool, io: Io, evs: seq<Event>, last: Event)
    requires e.wire == [] && Honest(io) && AllHonest(evs + [last])
    requires Live(Negotiation(setup, e, force, io, evs))
    ensures var before := Negotiation(setup, e, force, io, evs).engine;
            var s := ContinueStep(setup, before, last.code, last.io);
            && before.authused.Some?
            && (s.code == OK && s.progress == Done <==> before.state == Final && last.code == setup.proto.finalcode)
            && (s.code == OK && s.progress == Done ==>
                  && s.engine.authused == before.authused
                  && Dialogue(s.engine.wire) == Script(before.authused.value, false))
  {
    assert AllHonest(evs) by {
      forall i | 0 <= i < |evs| ensures Honest(evs[i].io) { assert evs[i] == (evs + [last])[i]; }
    }
    assert Honest(last.io) by { assert (evs + [last])[|evs|] == last; }
    NegotiationKeeps(setup, e, force, io, evs);
    var before := Negotiation(setup, e, force, io, evs).engine;
    var m := before.authused.value;
    assert Script(m, before.mutual) == Script(m, false);
    if before.state == Cancel {
      CancelKeeps(setup, before, last.code, last.io);
    } else if IsStation(before.state) {
      PayloadKeeps(setup, before, last.io);
    }
  }

  lemma DescendingOn(ms: seq<Mech>, m: Mech)
    requires Descending(ms) && forall i | 0 <= i < |ms| :: Place(ms[i]) < Place(m)
    ensures Descending(ms + [m])
  {
  }

  /** Start adds nothing to the log, or AUTH with a mechanism that can be used. */
  lemma StartAppends(setup: Setup, e: Engine, force: bool, io: Io)
    ensures var w := StartStep(setup, e, force, io).engine.wire;
            w == e.wire
            || (|w| == |e.wire| + 1 && w == e.wire + [w[|e.wire|]] && w[|e.wire|].Auth?
                && Eligible(setup, e.authmechs * e.prefmech, w[|e.wire|].mech))
  {
  }

  lemma StartTries(setup: Setup, e: Engine, force: bool, io: Io)
    requires Fresh(setup, e)
    ensures Descending(Attempts(StartStep(setup, e, force, io).engine.wire))
  {
    var s := StartStep(setup, e, force, io);
    var w := s.engine.wire;
    if w != e.wire {
      StartAppends(setup, e, force, io);
      Append(e.wire, w[|e.wire|]);
      DescendingOn(Attempts(e.wire), w[|e.wire|].mech);
    }
  }

  /** No answer, not even one that ends the negotiation, leads to a try out of order. */
  lemma ContinueTries(setup: Setup, e: Engine, code: int, io: Io)
    requires Inv(setup, e) && Honest(io)
    ensures Descending(Attempts(ContinueStep(setup, e, code, io).engine.wire))
  {
    if e.state == Cancel {
      var dropped := e.(authmechs := Xor(e.authmechs, e.authused));
      CancelClears(setup, e);
      StartEstablishes(setup, dropped, e.forceIr, io);
      StartTries(setup, dropped, e.forceIr, io);
    } else if IsStation(e.state) {
      var entry := Reply(setup.build, e.state, e.mutual, io).entry;
      if entry.Some? {
        AppendNoAuth(e.wire, entry.value);
      }
    }
  }

  lemma {:induction false} RunTries(setup: Setup, s: Step, evs: seq<Event>)
    requires AllHonest(evs) && Descending(Attempts(s.engine.wire))
    requires Live(s) ==> Inv(setup, s.engine)
    ensures Descending(Attempts(Run(setup, s, evs).engine.wire))
    decreases |evs|
  {
    if Live(s) && evs != [] {
      ContinueKeeps(setup, s.engine, evs[0].code, evs[0].io);
      ContinueTries(setup, s.engine, evs[0].code, evs[0].io);
      RunTries(setup, ContinueStep(setup, s.engine, evs[0].code, evs[0].io), evs[1..]);
    }
  }

  /**
   Mechanisms are tried in strictly decreasing preference, so none twice, in every negotiation, ended or
   not; while it goes on, the mechanism in use is the last tried and the best one left.
   */
  lemma TriesDescend(setup: Setup, e: Engine, force: bool, io: Io, evs: seq<Event>)
    requires e.wire == [] && Honest(io) && AllHonest(evs)
    ensures var r := Negotiation(setup, e, force, io, evs);
            var tries := Attempts(r.engine.wire);
            && Descending(tries) && (forall i, j | 0 <= i < j < |tries| :: tries[i] != tries[j])
            && (Live(r) ==> LastIsForemost(setup, r.engine))
  {
    StartEstablishes(setup, e, force, io);
    StartTries(setup, e, force, io);
    RunTries(setup, StartStep(setup, e, force, io), evs);
    DescendingIsDistinct(Attempts(Negotiation(setup, e, force, io, evs).engine.wire));
    NegotiationKeeps(setup, e, force, io, evs);
  }

  /** The mechanism in use is the last tried and the best one left. */
  ghost predicate LastIsForemost(setup: Setup, r: Engine) {
    var tries := Attempts(r.wire);
    tries != [] && r.authused == Some(tries[|tries| - 1]) && Foremost(setup, r, r.authused.value)
  }
}
