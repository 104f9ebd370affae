/**
 Initial responses change the framing of a negotiation and nothing else.

 A run that may send initial responses (asked for by the protocol or the user, and held back
 when longer than `maxirlen`) is compared with the run of the same engine that never sends any.
 Each initial response is answered by one extra, empty challenge in the second run.
 */
module SaslInitialResponse {
  import opened Basics
  import opened Sasl
  import opened SaslRuns

  function NoIr(setup: Setup): Setup {
    setup.(conn := setup.conn.(saslIr := false))
  }

  /** A wire entry with its initial response moved into a continuation of its own. */
  function Moved(x: Wire): seq<Wire> {
    match x
    case Auth(m, Some(t)) => [Auth(m, None), Cont(Script(m, false)[0], t)]
    case _ => [x]
  }

  function Delayed(w: seq<Wire>): seq<Wire> {
    if w == [] then [] else Delayed(w[..|w| - 1]) + Moved(w[|w| - 1])
  }

  /** The client payloads of a run, in order, however they were framed. */
  function Payloads(w: seq<Wire>): seq<(Payload, Text)> {
    if w == [] then [] else Payloads(w[..|w| - 1]) + PayloadOf(w[|w| - 1])
  }

  function PayloadOf(x: Wire): seq<(Payload, Text)> {
    match x
    case Auth(m, Some(t)) => [(Script(m, false)[0], t)]
    case Cont(k, t) => [(k, t)]
    case _ => []
  }

  lemma PayloadsAppend(w: seq<Wire>, x: Wire)
    ensures Payloads(w + [x]) == Payloads(w) + PayloadOf(x)
    ensures Delayed(w + [x]) == Delayed(w) + Moved(x)
  {
    assert (w + [x])[..|w|] == w;
  }

  /** Moving initial responses keeps the payload sequence. */
  lemma {:induction false} DelayedKeepsPayloads(w: seq<Wire>)
    ensures Payloads(Delayed(w)) == Payloads(w)
  {
    if w != [] {
      var front, x := w[..|w| - 1], w[|w| - 1];
      DelayedKeepsPayloads(front);
      var moved := Moved(x);
      PayloadsAppend(Delayed(front), moved[0]);
      if |moved| == 2 {
        assert Delayed(w) == (Delayed(front) + [moved[0]]) + [moved[1]];
        PayloadsAppend(Delayed(front) + [moved[0]], moved[1]);
      } else {
        assert Delayed(w) == Delayed(front) + [moved[0]];
      }
    }
  }

  /** The same engine, had it never sent an initial response. */
  ghost predicate Twin(a: Engine, b: Engine) {
    b == a.(forceIr := false, wire := Delayed(a.wire))
  }

  /** Whether start settles the first payload at once: by sending it, or by failing to create it. */
  predicate Settles(setup: Setup, e: Engine, force: bool, io: Io) {
    var best := Best(setup, e.authmechs * e.prefmech);
    && best.Some?
    && match FirstOutcome(setup, best.value, force, io)
       case Refused(_) => true
       case Made(first) => io.send == OK && Trimmed(setup, best.value, first).Some?
  }

  /** The extra answer that lets the delayed run produce the payload it held back. */
  function Prompt(setup: Setup, io: Io): Event {
    Event(setup.proto.contcode, io.(send := OK))
  }

  /** Where the two runs stand after the same negotiation: same verdict, same payloads. */
  ghost predicate Agree(a: Step, b: Step) {
    && a.code == b.code
    && a.engine.authmechs == b.engine.authmechs && a.engine.authused == b.engine.authused
    && Payloads(a.engine.wire) == Payloads(b.engine.wire)
    && (a.code == OK ==> a.progress == b.progress && Twin(a.engine, b.engine))
  }

  lemma BestIgnoresIr(setup: Setup, enabled: set<Mech>, i: nat)
    requires i <= 8
    ensures BestFrom(NoIr(setup), enabled, i) == BestFrom(setup, enabled, i)
    decreases 8 - i
  {
    if i < 8 && !Eligible(setup, enabled, Preference()[i]) {
      BestIgnoresIr(setup, enabled, i + 1);
    }
  }

  lemma StartIsNeverBad(setup: Setup, e: Engine, force: bool, io: Io)
    requires Honest(io)
    ensures StartStep(setup, e, force, io).code != BadContentEncoding
  {
  }

  /** Start without an initial response to deliver: the two engines move in step. */
  lemma StartInStep(setup: Setup, a: Engine, b: Engine, force: bool, io: Io)
    requires Twin(a, b) && Honest(io) && !Settles(setup, a, force, io)
    ensures var s, t := StartStep(setup, a, force, io), StartStep(NoIr(setup), b, false, io);
            s.code == t.code && s.progress == t.progress && Twin(s.engine, t.engine)
  {
    BestIgnoresIr(setup, a.authmechs * a.prefmech, 0);
    var best := Best(setup, a.authmechs * a.prefmech);
    if best.Some? {
      PayloadsAppend(a.wire, Auth(best.value, None));
    }
  }

  /** The first station of a client-first mechanism, prompted. */
  lemma PromptedStep(setup: Setup, e: Engine, m: Mech, io: Io)
    requires ClientFirst(m) && Compiled(setup.build, m) && (m == GSSAPI ==> !e.mutual)
    requires e.state == StationAt(m, e.mutual, 0) && Honest(io) && io.send == OK
    ensures var u := ContinueStep(setup, e, setup.proto.contcode, io);
            var kind := Script(m, false)[0];
            match io.make(kind)
            case Refused(c) => u == Step(e.(state := Stop), c, Done) && c != BadContentEncoding
            case Made(None) => true
            case Made(Some(t)) =>
              u == Step(e.(state := StationAt(m, e.mutual, 1), wire := e.wire + [Cont(kind, t)]), OK, InProgress)
  {
    StationsLocate(m, e.mutual, 0);
    assert Script(m, e.mutual)[0] == Script(m, false)[0];
    assert !Decodes(Script(m, false)[0]);
    assert MutualAt(e.state, e.mutual) == e.mutual;
  }

  /** Start of the delayed engine, when the other one settles its first payload. */
  lemma DelayedStart(setup: Setup, a: Engine, b: Engine, force: bool, io: Io)
    requires Twin(a, b) && Settles(setup, a, force, io)
    ensures var m := Best(setup, a.authmechs * a.prefmech).value;
            var mutual := if m == GSSAPI then false else a.mutual;
            && ClientFirst(m) && Compiled(setup.build, m)
            && FirstOutcome(setup, m, force, io) == io.make(Script(m, false)[0])
            && StartStep(NoIr(setup), b, false, io.(send := OK))
               == Step(Engine(StationAt(m, mutual, 0), a.authmechs, a.prefmech, Some(m), mutual, false,
                              b.wire + [Auth(m, None)]), OK, InProgress)
  {
    BestIgnoresIr(setup, a.authmechs * a.prefmech, 0);
  }

  /** Start of the engine that settles its first payload. */
  lemma SettledStart(setup: Setup, a: Engine, force: bool, io: Io)
    requires Settles(setup, a, force, io)
    ensures var m := Best(setup, a.authmechs * a.prefmech).value;
            var mutual := if m == GSSAPI then false else a.mutual;
            var s := StartStep(setup, a, force, io);
            && s.engine.authmechs == a.authmechs && s.engine.authused == Some(m)
            && match FirstOutcome(setup, m, force, io)
               case Refused(c) => s.code == c && s.progress == Idle && s.engine.wire == a.wire
               case Made(first) =>
                 first.Some?
                 && s == Step(Engine(StationAt(m, mutual, 1), a.authmechs, a.prefmech, Some(m), mutual, force,
                                     a.wire + [Auth(m, first)]), OK, InProgress)
  {
  }

  lemma CaughtUp(w: seq<Wire>, m: Mech, first: Text)
    ensures Delayed(w + [Auth(m, Some(first))]) == Delayed(w) + [Auth(m, None)] + [Cont(Script(m, false)[0], first)]
  {
    PayloadsAppend(w, Auth(m, Some(first)));
  }

  /** The two engines, started from `a` and `b`, once the delayed one has been prompted. */
  ghost predicate CaughtUpWith(s: Step, u: Step, a: Engine, b: Engine) {
    && s.code == u.code && (Live(s) <==> Live(u))
    && s.engine.authmechs == u.engine.authmechs && s.engine.authused == u.engine.authused
    && (Live(s) ==> Twin(s.engine, u.engine))
    && (!Live(s) ==> s.code != OK && s.code != BadContentEncoding
                     && s.engine.wire == a.wire && Payloads(u.engine.wire) == Payloads(b.wire))
  }

  /** The delayed engine once AUTH has gone out. */
  function Opened(b: Engine, m: Mech): Engine {
    var mutual := if m == GSSAPI then false else b.mutual;
    Engine(StationAt(m, mutual, 0), b.authmechs, b.prefmech, Some(m), mutual, false, b.wire + [Auth(m, None)])
  }

  lemma PromptMade(setup: Setup, a: Engine, b: Engine, force: bool, io: Io, m: Mech, first: Text)
    requires Twin(a, b) && Honest(io) && Settles(setup, a, force, io)
    requires Best(setup, a.authmechs * a.prefmech) == Some(m) && io.make(Script(m, false)[0]) == Made(Some(first))
    requires ClientFirst(m) && Compiled(setup.build, m) && FirstOutcome(setup, m, force, io) == Made(Some(first))
    ensures CaughtUpWith(StartStep(setup, a, force, io),
                         ContinueStep(NoIr(setup), Opened(b, m), setup.proto.contcode, io.(send := OK)), a, b)
  {
    SettledStart(setup, a, force, io);
    PromptedStep(NoIr(setup), Opened(b, m), m, io.(send := OK));
    CaughtUp(a.wire, m, first);
  }

  lemma PromptRefused(setup: Setup, a: Engine, b: Engine, force: bool, io: Io, m: Mech, c: Error)
    requires Twin(a, b) && Honest(io) && Settles(setup, a, force, io)
    requires Best(setup, a.authmechs * a.prefmech) == Some(m) && io.make(Script(m, false)[0]) == Refused(c)
    requires ClientFirst(m) && Compiled(setup.build, m) && FirstOutcome(setup, m, force, io) == Refused(c)
    ensures CaughtUpWith(StartStep(setup, a, force, io),
                         ContinueStep(NoIr(setup), Opened(b, m), setup.proto.contcode, io.(send := OK)), a, b)
  {
    SettledStart(setup, a, force, io);
    PromptedStep(NoIr(setup), Opened(b, m), m, io.(send := OK));
    PayloadsAppend(b.wire, Auth(m, None));
  }

  /** Start with one: the delayed engine catches up when prompted. */
  lemma StartThenPrompt(setup: Setup, a: Engine, b: Engine, force: bool, io: Io)
    requires Twin(a, b) && Honest(io) && Settles(setup, a, force, io)
    ensures var s := StartStep(setup, a, force, io);
            var t := StartStep(NoIr(setup), b, false, io.(send := OK));
            && Live(t)
            && var u := ContinueStep(NoIr(setup), t.engine, setup.proto.contcode, io.(send := OK));
               CaughtUpWith(s, u, a, b)
  {
    var m := Best(setup, a.authmechs * a.prefmech).value;
    DelayedStart(setup, a, b, force, io);
    match io.make(Script(m, false)[0]) {
      case Refused(c) => PromptRefused(setup, a, b, force, io, m, c);
      case Made(first) => PromptMade(setup, a, b, force, io, m, first.value);
    }
  }

  /** The engine with the cancelled mechanism dropped. */
  function Dropped(e: Engine): Engine {
    e.(authmechs := Xor(e.authmechs, e.authused))
  }

  /** What the delayed run is told when the other run is told `ev`. */
  function Told(setup: Setup, s: Step, ev: Event): seq<Event> {
    if s.engine.state == Cancel && Settles(setup, Dropped(s.engine), s.engine.forceIr, ev.io)
    then [ev.(io := ev.io.(send := OK)), Prompt(setup, ev.io)]
    else [ev]
  }

  /** Answers for the delayed run while the other run consumes `evs`. */
  function Padded(setup: Setup, s: Step, evs: seq<Event>): seq<Event>
    decreases |evs|
  {
    if !Live(s) || evs == [] then []
    else Told(setup, s, evs[0]) + Padded(setup, ContinueStep(setup, s.engine, evs[0].code, evs[0].io), evs[1..])
  }

  /** A payload is created, refused or sent the same way by both engines. */
  lemma ReactInStep(a: Engine, b: Engine, r: Reaction)
    requires Twin(a, b) && (r.entry.Some? ==> !r.entry.value.Auth?)
    ensures Twin(React(a, r).engine, React(b, r).engine)
  {
    if r.entry.Some? {
      PayloadsAppend(a.wire, r.entry.value);
    }
  }

  lemma PayloadInStep(setup: Setup, a: Engine, b: Engine, io: Io)
    requires Twin(a, b) && IsStation(a.state)
    ensures var s, t := PayloadStep(setup, a, io), PayloadStep(NoIr(setup), b, io);
            s.code == t.code && s.progress == t.progress && Twin(s.engine, t.engine)
  {
    ReactInStep(a, b, Reply(setup.build, a.state, a.mutual, io));
  }

  /** Two engines that moved in step agree. */
  lemma TwinsAgree(s: Step, t: Step)
    requires s.code == t.code && s.progress == t.progress && Twin(s.engine, t.engine)
    ensures Agree(s, t)
  {
    DelayedKeepsPayloads(s.engine.wire);
  }

  lemma PlainStep(setup: Setup, a: Engine, b: Engine, code: int, io: Io)
    requires Twin(a, b) && a.state != Cancel
    ensures var s, t := ContinueStep(setup, a, code, io), ContinueStep(NoIr(setup), b, code, io);
            s.code == t.code && s.progress == t.progress && Twin(s.engine, t.engine)
  {
    if IsStation(a.state) {
      PayloadInStep(setup, a, b, io);
    }
  }

  /** One answer to both engines outside the cancel exchange. */
  lemma PlainAnswer(setup: Setup, s: Step, t: Step, ev: Event)
    requires Live(s) && Live(t) && Twin(s.engine, t.engine) && s.engine.state != Cancel
    ensures var s' := ContinueStep(setup, s.engine, ev.code, ev.io);
            var t' := ContinueStep(NoIr(setup), t.engine, ev.code, ev.io);
            Agree(s', t') && s'.progress == t'.progress
  {
    PlainStep(setup, s.engine, t.engine, ev.code, ev.io);
    TwinsAgree(ContinueStep(setup, s.engine, ev.code, ev.io), ContinueStep(NoIr(setup), t.engine, ev.code, ev.io));
  }

  /** The cancel exchange restarts both engines without an initial response. */
  lemma RestartStep(setup: Setup, a: Engine, b: Engine, code: int, io: Io)
    requires Twin(a, b) && a.state == Cancel && Honest(io) && !Settles(setup, Dropped(a), a.forceIr, io)
    ensures var s, t := ContinueStep(setup, a, code, io), ContinueStep(NoIr(setup), b, code, io);
            s.code == t.code && s.progress == t.progress && Twin(s.engine, t.engine)
  {
    StartInStep(setup, Dropped(a), Dropped(b), a.forceIr, io);
    StartIsNeverBad(setup, Dropped(a), a.forceIr, io);
  }

  /** One answer to both engines that restarts them without an initial response. */
  lemma RestartAnswer(setup: Setup, s: Step, t: Step, ev: Event)
    requires Live(s) && Live(t) && Twin(s.engine, t.engine) && s.engine.state == Cancel && Honest(ev.io)
    requires !Settles(setup, Dropped(s.engine), s.engine.forceIr, ev.io)
    ensures var s' := ContinueStep(setup, s.engine, ev.code, ev.io);
            var t' := ContinueStep(NoIr(setup), t.engine, ev.code, ev.io);
            Agree(s', t') && s'.progress == t'.progress
  {
    RestartStep(setup, s.engine, t.engine, ev.code, ev.io);
    TwinsAgree(ContinueStep(setup, s.engine, ev.code, ev.io), ContinueStep(NoIr(setup), t.engine, ev.code, ev.io));
  }

  /** An answer that restarts one engine with its first payload, and two for the delayed engine. */
  lemma SettledAnswer(setup: Setup, s: Step, t: Step, ev: Event)
    requires Live(s) && Live(t) && Twin(s.engine, t.engine) && s.engine.state == Cancel && Honest(ev.io)
    requires Settles(setup, Dropped(s.engine), s.engine.forceIr, ev.io)
    ensures var s' := ContinueStep(setup, s.engine, ev.code, ev.io);
            var first := ContinueStep(NoIr(setup), t.engine, ev.code, ev.io.(send := OK));
            && Live(first)
            && var t' := ContinueStep(NoIr(setup), first.engine, setup.proto.contcode, ev.io.(send := OK));
               Agree(s', t') && (Live(s') <==> Live(t'))
  {
    StartThenPrompt(setup, Dropped(s.engine), Dropped(t.engine), s.engine.forceIr, ev.io);
    DelayedKeepsPayloads(s.engine.wire);
    DelayedKeepsPayloads(ContinueStep(setup, s.engine, ev.code, ev.io).engine.wire);
  }

  /** The answers `evs` bring the delayed run to where `ev` brings the other. */
  ghost predicate AnswersAgree(setup: Setup, s: Step, t: Step, ev: Event, evs: seq<Event>) {
    var s', t' := ContinueStep(setup, s.engine, ev.code, ev.io), Run(NoIr(setup), t, evs);
    Agree(s', t') && (Live(s') <==> Live(t'))
  }

  lemma TwoAnswers(setup: Setup, s: Step, t: Step, ev: Event)
    requires Live(s) && Live(t) && Twin(s.engine, t.engine) && s.engine.state == Cancel && Honest(ev.io)
    requires Settles(setup, Dropped(s.engine), s.engine.forceIr, ev.io)
    ensures AnswersAgree(setup, s, t, ev, [ev.(io := ev.io.(send := OK)), Prompt(setup, ev.io)])
  {
    var first, prompt := ev.(io := ev.io.(send := OK)), Prompt(setup, ev.io);
    SettledAnswer(setup, s, t, ev);
    assert [first, prompt] == [first] + ([prompt] + []);
    RunOne(NoIr(setup), t, first, [prompt] + []);
    RunOne(NoIr(setup), ContinueStep(NoIr(setup), t.engine, first.code, first.io), prompt, []);
  }

  lemma OneAnswer(setup: Setup, s: Step, t: Step, ev: Event)
    requires Live(s) && Live(t) && Twin(s.engine, t.engine) && Honest(ev.io)
    requires s.engine.state == Cancel ==> !Settles(setup, Dropped(s.engine), s.engine.forceIr, ev.io)
    ensures AnswersAgree(setup, s, t, ev, [ev])
  {
    if s.engine.state == Cancel {
      RestartAnswer(setup, s, t, ev);
    } else {
      PlainAnswer(setup, s, t, ev);
    }
    assert [ev] == [ev] + [];
    RunOne(NoIr(setup), t, ev, []);
  }

  /** One answer for each engine, or two for the delayed one, and the engines are in step again. */
  lemma AnswerInStep(setup: Setup, s: Step, t: Step, ev: Event)
    requires Live(s) && Live(t) && Twin(s.engine, t.engine) && Honest(ev.io)
    ensures AnswersAgree(setup, s, t, ev, Told(setup, s, ev))
  {
    if s.engine.state == Cancel && Settles(setup, Dropped(s.engine), s.engine.forceIr, ev.io) {
      TwoAnswers(setup, s, t, ev);
    } else {
      OneAnswer(setup, s, t, ev);
    }
  }

  lemma {:induction false} RunsAgree(setup: Setup, s: Step, t: Step, evs: seq<Event>)
    requires Live(s) && Live(t) && Twin(s.engine, t.engine) && AllHonest(evs)
    ensures Agree(Run(setup, s, evs), Run(NoIr(setup), t, Padded(setup, s, evs)))
    decreases |evs|
  {
    DelayedKeepsPayloads(s.engine.wire);
    if evs != [] {
      var ev, rest := evs[0], evs[1..];
      var s' := ContinueStep(setup, s.engine, ev.code, ev.io);
      var t' := Run(NoIr(setup), t, Told(setup, s, ev));
      AnswerInStep(setup, s, t, ev);
      RunInTwo(NoIr(setup), t, Told(setup, s, ev), Padded(setup, s', rest));
      if Live(s') {
        RunsAgree(setup, s', t', rest);
      }
    }
  }

  /** The answers the delayed negotiation gets. */
  function DelayedAnswers(setup: Setup, e: Engine, force: bool, io: Io, evs: seq<Event>): seq<Event> {
    var prompt := if Settles(setup, e, force, io) then [Prompt(setup, io)] else [];
    prompt + Padded(setup, StartStep(setup, e, force, io), evs)
  }

  /** A first payload that cannot be created fails the other start before AUTH is sent; here it goes out. */
  function DelayedIo(setup: Setup, e: Engine, force: bool, io: Io): Io {
    if Settles(setup, e, force, io) then io.(send := OK) else io
  }

  /** The negotiation without initial responses that `evs` is compared with. */
  function DelayedNegotiation(setup: Setup, e: Engine, force: bool, io: Io, evs: seq<Event>): Step {
    Negotiation(NoIr(setup), e, false, DelayedIo(setup, e, force, io), DelayedAnswers(setup, e, force, io, evs))
  }

  lemma SettledTransparent(setup: Setup, e: Engine, force: bool, io: Io, evs: seq<Event>)
    requires e.wire == [] && Honest(io) && AllHonest(evs) && Settles(setup, e, force, io)
    ensures Agree(Negotiation(setup, e, force, io, evs), DelayedNegotiation(setup, e, force, io, evs))
  {
    var s, f := StartStep(setup, e, force, io), e.(forceIr := false);
    var io' := io.(send := OK);
    var t := StartStep(NoIr(setup), f, false, io');
    assert t == StartStep(NoIr(setup), e, false, io');
    StartThenPrompt(setup, e, f, force, io);
    var u := ContinueStep(NoIr(setup), t.engine, setup.proto.contcode, io');
    RunOne(NoIr(setup), t, Prompt(setup, io), Padded(setup, s, evs));
    if Live(s) {
      RunsAgree(setup, s, u, evs);
    }
  }

  lemma UnsettledTransparent(setup: Setup, e: Engine, force: bool, io: Io, evs: seq<Event>)
    requires e.wire == [] && Honest(io) && AllHonest(evs) && !Settles(setup, e, force, io)
    ensures Agree(Negotiation(setup, e, force, io, evs), DelayedNegotiation(setup, e, force, io, evs))
  {
    var s, f := StartStep(setup, e, force, io), e.(forceIr := false);
    var t := StartStep(NoIr(setup), f, false, io);
    assert t == StartStep(NoIr(setup), e, false, io);
    StartInStep(setup, e, f, force, io);
    assert DelayedAnswers(setup, e, force, io, evs) == Padded(setup, s, evs);
    if Live(s) {
      RunsAgree(setup, s, t, evs);
    } else {
      TwinsAgree(s, t);
    }
  }

  /**
   Transparency: a negotiation with initial responses, sent or held back for their length, ends
   like the one without them, also when the very first call fails; the client says the same payloads in
   the same order, and as long as nothing failed the wire differs only in where the first payload of
   each dialogue travels.
   */
  lemma InitialResponsesAreTransparent(setup: Setup, e: Engine, force: bool, io: Io, evs: seq<Event>)
    requires e.wire == [] && Honest(io) && AllHonest(evs)
    ensures var a := Negotiation(setup, e, force, io, evs);
            var b := DelayedNegotiation(setup, e, force, io, evs);
            && a.code == b.code
            && a.engine.authused == b.engine.authused && a.engine.authmechs == b.engine.authmechs
            && Payloads(a.engine.wire) == Payloads(b.engine.wire)
            && (a.code == OK ==> a.progress == b.progress && a.engine.state == b.engine.state
                                 && b.engine.wire == Delayed(a.engine.wire))
  {
    if Settles(setup, e, force, io) {
      SettledTransparent(setup, e, force, io, evs);
    } else {
      UnsettledTransparent(setup, e, force, io, evs);
    }
  }
}
