/**
 The happy-eyeballs connection race of connect.c.

 Two lanes walk one address list; each lane has a cursor (`tempaddr`) and at most one pending
 socket (`tempsock`).  The kernel, the user's callbacks and the clock answer arbitrarily.
 `open` is the set of descriptors the kernel holds for this connection: a socket can be closed
 only while it is in `open`, and a new descriptor is any number that is not.
 */
module Connect {
  import opened Basics

  /** The two address families of the race. */
  datatype Family = INET | INET6

  datatype Code = OK | CouldntConnect | OperationTimedOut | OtherError(code: int)

  /** What happens inside singleipconnect. */
  datatype Attempt =
    | NoSocket            // Curl_socket fails
    | BadAddress          // getaddressinfo fails
    | CallbackAbort       // the socket callback refuses
    | FamilyUnsupported   // bindlocal says CURLE_UNSUPPORTED_PROTOCOL
    | BindFailure(code: int)
    | NotStream           // already connected, or UDP
    | Pending             // connect succeeded or is in progress
    | ImmediateFailure    // connect failed

  /** Curl_socket_ready. */
  datatype Ready = NotYet | Writable | InError | OtherBits

  /** What a poll learns about one lane: readiness, its time-out, and what verifyconnect says. */
  datatype LaneAnswer = LaneAnswer(ready: Ready, slow: bool, verified: bool, failing: bool)

  /** The answers to one poll: time-out, the lanes, the happy-eyeballs timer, and the proxy of a winner. */
  datatype Poll = Poll(expired: bool, lane0: LaneAnswer, lane1: LaneAnswer, late: bool, proxy: Code)

  /** One call of singleipconnect: the lane, the address, the result, the socket it left open. */
  datatype Try = Try(lane: nat, addr: nat, code: Code, sock: Option<nat>)

  /** The addresses at or after `from`, of one family if a family is asked for. */
  function Candidates(addrs: seq<Family>, from: nat, family: Option<Family>): (r: seq<nat>)
    requires from <= |addrs|
    ensures forall c | c in r :: from <= c < |addrs| && (family.Some? ==> addrs[c] == family.value)
    decreases |addrs| - from
  {
    if from == |addrs| then []
    else if family.None? || addrs[from] == family.value then [from] + Candidates(addrs, from + 1, family)
    else Candidates(addrs, from + 1, family)
  }

  /** With the contract of `Candidates`: exactly the matching addresses, in list order. */
  lemma {:induction false} EveryMatchIsCandidate(addrs: seq<Family>, from: nat, family: Option<Family>, c: nat)
    requires from <= c < |addrs| && (family.Some? ==> addrs[c] == family.value)
    ensures c in Candidates(addrs, from, family)
    decreases c - from
  {
    if from == c {
      assert Candidates(addrs, from, family)[0] == c;
    } else {
      EveryMatchIsCandidate(addrs, from + 1, family, c);
    }
  }

  lemma {:induction false} CandidatesAscend(addrs: seq<Family>, from: nat, family: Option<Family>, i: nat, j: nat)
    requires from <= |addrs| && i < j < |Candidates(addrs, from, family)|
    ensures Candidates(addrs, from, family)[i] < Candidates(addrs, from, family)[j]
    decreases |addrs| - from
  {
    var rest := Candidates(addrs, from + 1, family);
    if family.None? || addrs[from] == family.value {
      assert rest[j - 1] in rest;
      if i > 0 {
        CandidatesAscend(addrs, from + 1, family, i - 1, j - 1);
      }
    } else {
      CandidatesAscend(addrs, from + 1, family, i, j);
    }
  }

  function Addresses(tries: seq<Try>): seq<nat> {
    seq(|tries|, i requires 0 <= i < |tries| => tries[i].addr)
  }

  /** All attempts failed on the spot. */
  predicate AllRefused(tries: seq<Try>) {
    forall i | 0 <= i < |tries| :: tries[i].code == CouldntConnect
  }

  /** A round of attempts: candidates in order, none skipped, until one does not fail on the spot. */
  ghost predicate Round(tries: seq<Try>, candidates: seq<nat>, code: Code) {
    && Addresses(tries) <= candidates
    && (if tries == [] || AllRefused(tries) then |tries| == |candidates| && code == CouldntConnect
        else AllRefused(tries[..|tries| - 1]) && tries[|tries| - 1].code == code != CouldntConnect)
  }

  /** The attempts go forward in the list. */
  ghost predicate Ascends(tries: seq<Try>) {
    forall i, j | 0 <= i < j < |tries| :: tries[i].addr < tries[j].addr
  }

  lemma RoundAscends(tries: seq<Try>, addrs: seq<Family>, from: nat, family: Option<Family>)
    requires from <= |addrs| && Addresses(tries) <= Candidates(addrs, from, family)
    ensures Ascends(tries)
  {
    forall i, j | 0 <= i < j < |tries| ensures tries[i].addr < tries[j].addr {
      CandidatesAscend(addrs, from, family, i, j);
      assert Addresses(tries)[i] == tries[i].addr && Addresses(tries)[j] == tries[j].addr;
    }
  }

  lemma RoundInFamily(tries: seq<Try>, addrs: seq<Family>, from: nat, f: Family)
    requires from <= |addrs| && Addresses(tries) <= Candidates(addrs, from, Some(f))
    ensures forall t | t in tries :: t.addr < |addrs| && addrs[t.addr] == f
  {
    forall t | t in tries ensures t.addr < |addrs| && addrs[t.addr] == f {
      var i :| 0 <= i < |tries| && tries[i] == t;
      assert Addresses(tries)[i] in Candidates(addrs, from, Some(f));
    }
  }

  predicate OfLane(tries: seq<Try>, lane: nat) {
    forall t | t in tries :: t.lane == lane
  }

  /** The walk has reached `ai`: the candidates before it are the ones tried. */
  ghost predicate Reached(tries: seq<Try>, addrs: seq<Family>, start: nat, ai: nat, family: Option<Family>) {
    && start <= ai <= |addrs|
    && var all := Candidates(addrs, start, family);
       && |tries| <= |all| && Addresses(tries) == all[..|tries|] && Candidates(addrs, ai, family) == all[|tries|..]
  }

  lemma ReachedByTrying(tries: seq<Try>, addrs: seq<Family>, start: nat, ai: nat, family: Option<Family>, t: Try)
    requires Reached(tries, addrs, start, ai, family)
    requires ai < |addrs| && (family.None? || addrs[ai] == family.value) && t.addr == ai
    ensures Reached(tries + [t], addrs, start, ai + 1, family)
  {
    var all := Candidates(addrs, start, family);
    var rest := Candidates(addrs, ai + 1, family);
    assert all[|tries|..] == [ai] + rest;
    assert all[|tries|] == ai && all[|tries| + 1..] == all[|tries|..][1..];
    assert Addresses(tries + [t]) == all[..|tries| + 1];
  }

  lemma {:induction false} ReachedBySkipping(tries: seq<Try>, addrs: seq<Family>, start: nat, ai: nat, to: nat,
                                             family: Family)
    requires Reached(tries, addrs, start, ai, Some(family))
    requires ai <= to <= |addrs| && forall k | ai <= k < to :: addrs[k] != family
    ensures Reached(tries, addrs, start, to, Some(family))
    decreases |addrs| - ai
  {
    if ai < to {
      ReachedBySkipping(tries, addrs, start, ai + 1, to, family);
    }
  }

  /** The attempts of a walk that has ended make a round. */
  lemma RoundEnds(tries: seq<Try>, addrs: seq<Family>, start: nat, ai: nat, family: Option<Family>, code: Code)
    requires Reached(tries, addrs, start, ai, family)
    requires code == CouldntConnect ==> ai == |addrs| && AllRefused(tries)
    requires code != CouldntConnect ==>
               tries != [] && AllRefused(tries[..|tries| - 1]) && tries[|tries| - 1].code == code
    ensures Round(tries, Candidates(addrs, start, family), code)
  {
  }

  /** Where trynextip starts looking, and for which family if the other lane is busy. */
  function NextFrom(addrs: seq<Family>, tempaddr: seq<Option<nat>>, lane: nat): (r: Option<(nat, Option<Family>)>)
    requires Cursors(addrs, tempaddr) && lane < 2
    ensures r.Some? ==> r.value.0 <= |addrs|
  {
    var narrow := tempaddr[1 - lane].Some?;
    if tempaddr[lane].Some? then
      Some((tempaddr[lane].value + 1, if narrow then Some(addrs[tempaddr[lane].value]) else None))
    else if tempaddr[0].Some? then
      Some((tempaddr[0].value + 1, if narrow then Some(Other(addrs[tempaddr[0].value])) else None))
    else None
  }

  /** Two cursors in the list; when both are set they are in different families. */
  ghost predicate Cursors(addrs: seq<Family>, tempaddr: seq<Option<nat>>) {
    && |tempaddr| == 2
    && (forall i | 0 <= i < 2 :: tempaddr[i].Some? ==> tempaddr[i].value < |addrs|)
    && (tempaddr[1].Some? ==> tempaddr[0].Some? && addrs[tempaddr[0].value] != addrs[tempaddr[1].value])
  }

  /** The lane's remaining addresses were tried in order; nothing was, if there is no place to start from. */
  ghost predicate LaneRound(addrs: seq<Family>, tempaddr: seq<Option<nat>>, lane: nat, tries: seq<Try>, code: Code)
    requires Cursors(addrs, tempaddr) && lane < 2
  {
    match NextFrom(addrs, tempaddr, lane)
    case None => tries == [] && code == CouldntConnect
    case Some((from, family)) => Round(tries, Candidates(addrs, from, family), code)
  }

  predicate BothSet(tempaddr: seq<Option<nat>>) {
    |tempaddr| == 2 && tempaddr[0].Some? && tempaddr[1].Some?
  }

  /** The attempt was made by a lane in the lane's own family. */
  ghost predicate InLane(addrs: seq<Family>, tempaddr: seq<Option<nat>>, t: Try)
    requires Cursors(addrs, tempaddr) && BothSet(tempaddr)
  {
    t.lane < 2 && t.addr < |addrs| && addrs[t.addr] == addrs[tempaddr[t.lane].value]
  }

  /** Once both cursors are set, both stay set and in their families, and every attempt is in its lane's family. */
  ghost predicate InLanes(addrs: seq<Family>, before: seq<Option<nat>>, after: seq<Option<nat>>, tries: seq<Try>)
    requires Cursors(addrs, before) && Cursors(addrs, after)
  {
    BothSet(before) ==>
      && BothSet(after)
      && (forall i | 0 <= i < 2 :: addrs[after[i].value] == addrs[before[i].value])
      && forall t | t in tries :: InLane(addrs, before, t)
  }

  lemma InLanesOn(addrs: seq<Family>, a: seq<Option<nat>>, b: seq<Option<nat>>, c: seq<Option<nat>>,
                  first: seq<Try>, second: seq<Try>)
    requires Cursors(addrs, a) && Cursors(addrs, b) && Cursors(addrs, c)
    requires InLanes(addrs, a, b, first) && InLanes(addrs, b, c, second)
    ensures InLanes(addrs, a, c, first + second)
  {
    if BothSet(a) {
      forall t | t in first + second ensures InLane(addrs, a, t) {
        assert t in first || InLane(addrs, b, t);
      }
    }
  }

  /** One lane's round stays in the lane. */
  lemma RoundInLane(addrs: seq<Family>, before: seq<Option<nat>>, lane: nat, tries: seq<Try>, code: Code)
    requires Cursors(addrs, before) && lane < 2 && OfLane(tries, lane) && LaneRound(addrs, before, lane, tries, code)
    ensures Ascends(tries)
    ensures InLanes(addrs, before, before, tries)
    ensures code != CouldntConnect ==>
              var after := before[lane := Some(tries[|tries| - 1].addr)];
              Cursors(addrs, after) ==> InLanes(addrs, before, after, tries)
  {
    var next := NextFrom(addrs, before, lane);
    if next.Some? {
      RoundAscends(tries, addrs, next.value.0, next.value.1);
      if BothSet(before) {
        RoundInFamily(tries, addrs, next.value.0, addrs[before[lane].value]);
        assert tries != [] ==> tries[|tries| - 1] in tries;
      }
    }
  }

  /** Lanes in different families never try the same address. */
  lemma LanesNeverMeet(addrs: seq<Family>, before: seq<Option<nat>>, after: seq<Option<nat>>, tries: seq<Try>)
    requires Cursors(addrs, before) && Cursors(addrs, after) && BothSet(before) && InLanes(addrs, before, after, tries)
    ensures forall t, u | t in tries && u in tries && t.lane != u.lane :: t.addr != u.addr
  {
    forall t, u | t in tries && u in tries && t.lane != u.lane ensures t.addr != u.addr {
      assert InLane(addrs, before, t) && InLane(addrs, before, u);
    }
  }

  /** The first attempts: from the first address on until one does not fail; its socket is the only one pending. */
  ghost predicate FirstRound(list: seq<Family>, round: seq<Try>, code: Code,
                             tempaddr: seq<Option<nat>>, tempsock: seq<Option<nat>>)
  {
    && round != [] && Addresses(round) <= Candidates(list, 0, None) && OfLane(round, 0)
    && (forall i | 0 <= i < |round| - 1 :: round[i].code != OK)
    && var last := round[|round| - 1];
       && code == last.code && (code == OK || |round| == |list|) && (code == OK ==> last.addr < |list|)
       && (last.sock.Some? ==> code == OK)
       && tempsock == [last.sock, None] && tempaddr == [if code == OK then Some(last.addr) else None, None]
  }

  // ---------------------------------------------------------------- one poll

  /** The socket is connected. */
  predicate Wins(a: LaneAnswer) {
    a.ready == Writable && a.verified
  }

  /** The lane is in error; an error found before is forgotten only if the socket says that it has none. */
  predicate Errs(a: LaneAnswer, carried: bool) {
    match a.ready
    case NotYet => carried || a.slow
    case Writable => true
    case InError => a.failing
    case OtherBits => carried
  }

  /** One call of trynextip: the cursors it found, the socket it gave up, the attempts it made. */
  datatype Walk = Walk(lane: nat, cursors: seq<Option<nat>>, failed: Option<nat>, attempts: seq<Try>, code: Code)

  /** The cursors and the pending sockets of the two lanes. */
  datatype Contest = Contest(cursors: seq<Option<nat>>, pending: seq<Option<nat>>)

  ghost predicate Paired(c: Contest) {
    && |c.cursors| == |c.pending| == 2
    && forall i | 0 <= i < 2 && c.pending[i].Some? :: c.cursors[i].Some?
  }

  /** Every attempt lies behind the cursor the lane starts from, its own or else that of the first lane. */
  ghost predicate Ahead(cursors: seq<Option<nat>>, lane: nat, attempts: seq<Try>)
    requires |cursors| == 2 && lane < 2
  {
    forall t | t in attempts ::
      if cursors[lane].Some? then cursors[lane].value < t.addr else cursors[0].Some? && cursors[0].value < t.addr
  }

  lemma RoundIsAhead(addrs: seq<Family>, cursors: seq<Option<nat>>, lane: nat, tries: seq<Try>, code: Code)
    requires Cursors(addrs, cursors) && lane < 2 && LaneRound(addrs, cursors, lane, tries, code)
    ensures Ahead(cursors, lane, tries)
  {
    var next := NextFrom(addrs, cursors, lane);
    forall t | t in tries ensures next.Some? && next.value.0 <= t.addr {
      var i :| 0 <= i < |tries| && tries[i] == t;
      assert Addresses(tries)[i] in Candidates(addrs, next.value.0, next.value.1);
    }
  }

  /** The lane moves to the last attempt, unless that failed on the spot; the other lane stays. */
  function Moved(c: Contest, w: Walk): Contest
    requires |c.cursors| == |c.pending| == 2 && w.lane < 2
  {
    if w.code == CouldntConnect || w.attempts == [] then Contest(c.cursors, c.pending[w.lane := None])
    else
      var last := w.attempts[|w.attempts| - 1];
      Contest(c.cursors[w.lane := Some(last.addr)], c.pending[w.lane := last.sock])
  }

  /** A walk from where the lanes are; with a list, it makes the lane's attempts in order. */
  ghost predicate WalksFrom(addrs: seq<Family>, sockindex: nat, c: Contest, w: Walk) {
    && w.lane < 2 && |c.cursors| == |c.pending| == 2 && Cursors(addrs, c.cursors)
    && w.cursors == c.cursors && w.failed == c.pending[w.lane]
    && (w.code != CouldntConnect ==> w.attempts != [])
    && (if sockindex == 0 then LaneRound(addrs, c.cursors, w.lane, w.attempts, w.code)
        else w.attempts == [] && w.code == CouldntConnect)
  }

  /** Walks, one after the other, lead from `a` to `b`. */
  ghost predicate Lead(addrs: seq<Family>, sockindex: nat, a: Contest, ws: seq<Walk>, b: Contest)
    decreases |ws|
  {
    if ws == [] then a == b
    else WalksFrom(addrs, sockindex, a, ws[0]) && Lead(addrs, sockindex, Moved(a, ws[0]), ws[1..], b)
  }

  lemma {:induction false} LeadOn(addrs: seq<Family>, sockindex: nat, a: Contest, ws: seq<Walk>, b: Contest, w: Walk)
    requires Lead(addrs, sockindex, a, ws, b) && WalksFrom(addrs, sockindex, b, w)
    ensures Lead(addrs, sockindex, a, ws + [w], Moved(b, w))
    decreases |ws|
  {
    if ws != [] {
      LeadOn(addrs, sockindex, Moved(a, ws[0]), ws[1..], b, w);
      assert (ws + [w])[1..] == ws[1..] + [w];
    }
  }

  /** The lane takes part in none of the walks. */
  ghost predicate Rests(ws: seq<Walk>, lane: nat) {
    forall w | w in ws :: w.lane != lane
  }

  /** A lane that takes no part stays where it is; a cursor, once set, stays set. */
  lemma {:induction false} RestingStays(addrs: seq<Family>, sockindex: nat, a: Contest, ws: seq<Walk>, b: Contest,
                                        lane: nat)
    requires Lead(addrs, sockindex, a, ws, b) && |a.cursors| == |a.pending| == 2 && lane < 2
    ensures |b.cursors| == |b.pending| == 2
    ensures Rests(ws, lane) ==> b.cursors[lane] == a.cursors[lane] && b.pending[lane] == a.pending[lane]
    ensures a.cursors[lane].Some? ==> b.cursors[lane].Some?
    ensures Paired(a) ==> Paired(b)
    decreases |ws|
  {
    if ws != [] {
      assert ws[0] in ws && forall w | w in ws[1..] :: w in ws;
      RestingStays(addrs, sockindex, Moved(a, ws[0]), ws[1..], b, lane);
    }
  }

  /** The second lane is started by the timer of the first. */
  predicate Started(c: Contest, a: LaneAnswer, late: bool)
    requires |c.cursors| == |c.pending| == 2
  {
    c.pending[0].Some? && a.ready == NotYet && c.cursors[1].None? && late
  }

  function LanesOf(ws: seq<Walk>): seq<nat> {
    seq(|ws|, i requires 0 <= i < |ws| => ws[i].lane)
  }

  /** The result so far, after a lane in error has walked: a failure counts once nothing else is pending. */
  function ResultOf(before: Code, w: Walk, other: Option<nat>): Code {
    if w.code != CouldntConnect || other.None? then w.code else before
  }

  /** One lane's turn in a poll that it does not win. */
  ghost predicate Turn(lane: nat, answer: LaneAnswer, late: bool, carried: bool, before: Code,
                       a: Contest, ws: seq<Walk>, b: Contest, error: bool, result: Code)
  {
    && |a.cursors| == |a.pending| == |b.pending| == 2 && lane < 2
    && !(a.pending[lane].Some? && Wins(answer))
    && error == (if a.pending[lane].Some? then Errs(answer, carried) else carried)
    && var gives := a.pending[lane].Some? && error;
       && LanesOf(ws) == (if lane == 0 && Started(a, answer, late) then [1] else []) + (if gives then [lane] else [])
       && (if gives then
             && ws != [] && ws[|ws| - 1].failed == a.pending[lane]
             && result == ResultOf(before, ws[|ws| - 1], b.pending[1 - lane])
             && (b.pending[lane].Some? ==> ws[|ws| - 1].code == OK)
           else
             result == before)
  }

  /** After both turns, the second lane walks if there is a failure and it never has. */
  ghost predicate LastWalk(c: Contest, ws: seq<Walk>, b: Contest, before: Code, result: Code) {
    && |c.cursors| == |c.pending| == 2
    && if before != OK && c.cursors[1].None? then
         |ws| == 1 && ws[0].lane == 1 && b == Moved(c, ws[0]) && result == ws[0].code
       else
         ws == [] && b == c && result == before
  }

  /** What the two turns of a poll have come to. */
  datatype Trace = Trace(first: seq<Walk>, mid: Contest, error0: bool, result0: Code,
                         second: seq<Walk>, end: Contest, error1: bool, result1: Code)

  /** The turns of a poll that nobody wins. */
  ghost predicate Turns(addrs: seq<Family>, sockindex: nat, poll: Poll, a: Contest, t: Trace) {
    && Lead(addrs, sockindex, a, t.first, t.mid) && Lead(addrs, sockindex, a, t.first + t.second, t.end)
    && Turn(0, poll.lane0, poll.late, false, OK, a, t.first, t.mid, t.error0, t.result0)
    && Turn(1, poll.lane1, poll.late, t.error0, t.result0, t.mid, t.second, t.end, t.error1, t.result1)
  }

  /** The turns of the first `i` lanes, and where they have led. */
  ghost predicate SoFar(i: nat, addrs: seq<Family>, sockindex: nat, poll: Poll, a: Contest, t: Trace,
                        ws: seq<Walk>, now: Contest, error: bool, result: Code)
  {
    if i == 0 then ws == [] && now == a && !error && result == OK
    else if i == 1 then
      && Lead(addrs, sockindex, a, t.first, t.mid)
      && Turn(0, poll.lane0, poll.late, false, OK, a, t.first, t.mid, t.error0, t.result0)
      && ws == t.first && now == t.mid && error == t.error0 && result == t.result0
    else
      && Turns(addrs, sockindex, poll, a, t)
      && ws == t.first + t.second && now == t.end && error == t.error1 && result == t.result1
  }

  /** What a lane that has won had pending: the second lane's turn comes after the first's. */
  ghost predicate IsWinner(poll: Poll, a: Contest, s: Option<nat>) {
    && |a.cursors| == |a.pending| == 2 && s.Some? && (Wins(poll.lane0) || Wins(poll.lane1))
    && (a.pending[0].Some? && Wins(poll.lane0) ==> s == a.pending[0])
    && (!(a.pending[0].Some? && Wins(poll.lane0)) && a.pending[1].Some? ==> s == a.pending[1])
  }

  /** No lane that was pending is connected. */
  ghost predicate NobodyWon(a: Contest, poll: Poll) {
    && |a.pending| == 2
    && !(a.pending[0].Some? && Wins(poll.lane0)) && !(a.pending[1].Some? && Wins(poll.lane1))
  }

  /** One turn more. */
  lemma SoFarOn(i: nat, addrs: seq<Family>, sockindex: nat, poll: Poll, a: Contest, t: Trace, ws: seq<Walk>,
                now: Contest, carried: bool, before: Code, more: seq<Walk>, now': Contest, error: bool, result: Code)
    returns (t': Trace)
    requires i < 2 && SoFar(i, addrs, sockindex, poll, a, t, ws, now, carried, before)
    requires Turn(i, if i == 0 then poll.lane0 else poll.lane1, poll.late, carried, before,
                  now, more, now', error, result)
    requires Lead(addrs, sockindex, a, ws + more, now')
    ensures SoFar(i + 1, addrs, sockindex, poll, a, t', ws + more, now', error, result)
  {
    if i == 0 {
      assert ws + more == more;
      t' := t.(first := more, mid := now', error0 := error, result0 := result);
    } else {
      t' := t.(second := more, end := now', error1 := error, result1 := result);
    }
  }

  lemma SecondCanWin(addrs: seq<Family>, sockindex: nat, poll: Poll, a: Contest, t: Trace, ws: seq<Walk>, now: Contest,
                     error: bool, result: Code)
    requires Paired(a) && SoFar(1, addrs, sockindex, poll, a, t, ws, now, error, result)
    requires |now.pending| == 2 && now.pending[1].Some? && Wins(poll.lane1)
    ensures IsWinner(poll, a, now.pending[1])
  {
    if a.pending[1].Some? {
      LanesRest(t.first, 1);
      RestingStays(addrs, sockindex, a, t.first, t.mid, 1);
    }
  }

  lemma LanesRest(ws: seq<Walk>, lane: nat)
    requires forall i | 0 <= i < |LanesOf(ws)| :: LanesOf(ws)[i] != lane
    ensures Rests(ws, lane)
  {
    forall w | w in ws ensures w.lane != lane {
      var i :| 0 <= i < |ws| && ws[i] == w;
      assert LanesOf(ws)[i] == w.lane;
    }
  }

  /** Some walk gave up this socket of the lane. */
  ghost predicate GivesUp(ws: seq<Walk>, lane: nat, failed: Option<nat>) {
    exists w :: w in ws && w.lane == lane && w.failed == failed
  }

  /** The lane is where it was, and took no part. */
  ghost predicate Keeps(a: Contest, ws: seq<Walk>, b: Contest, lane: nat)
    requires |a.cursors| == |a.pending| == |b.cursors| == |b.pending| == 2 && lane < 2
  {
    Rests(ws, lane) && b.cursors[lane] == a.cursors[lane] && b.pending[lane] == a.pending[lane]
  }

  /**
   Without a winner: a lane keeps its socket and its cursor unless it is in error, a lane in error gives up its
   socket for its next address, and the timer starts the second lane.
   */
  ghost predicate LanesAnswered(a: Contest, poll: Poll, ws: seq<Walk>, b: Contest)
    requires |a.cursors| == |a.pending| == |b.cursors| == |b.pending| == 2
  {
    var error0 := a.pending[0].Some? && Errs(poll.lane0, false);
    && (if error0 then GivesUp(ws, 0, a.pending[0]) else Keeps(a, ws, b, 0))
    && (a.pending[1].Some? ==>
          if Errs(poll.lane1, error0) then GivesUp(ws, 1, a.pending[1]) else Keeps(a, ws, b, 1))
    && (Started(a, poll.lane0, poll.late) ==> ws != [] && ws[0].lane == 1 && ws[0].cursors == a.cursors)
  }

  /**
   Without a winner: a failure is that of some walk; the last one is reported only when nothing is pending any more;
   a single lane in error reports how its walk went, or the walk of the second lane that follows it.
   */
  ghost predicate Verdict(a: Contest, poll: Poll, ws: seq<Walk>, b: Contest, result: Code)
    requires |a.cursors| == |a.pending| == |b.cursors| == |b.pending| == 2
  {
    var error0 := a.pending[0].Some? && Errs(poll.lane0, false);
    && (result == CouldntConnect ==> b.pending == [None, None])
    && (result != OK ==> exists w :: w in ws && w.code == result)
    && (error0 && a.pending[1].None? && !Started(a, poll.lane0, poll.late) ==>
          && ws != [] && ws[0].lane == 0
          && if ws[0].code == OK || a.cursors[1].Some? then |ws| == 1 && result == ws[0].code
             else |ws| == 2 && ws[1].lane == 1 && result == ws[1].code)
    && (a.pending[0].None? && a.pending[1].Some? && Errs(poll.lane1, false) ==>
          |ws| == 1 && ws[0].lane == 1 && result == ws[0].code)
  }

  /** A turn is the start of the second lane, if it is time, and a walk of the lane itself, if it is in error. */
  lemma TurnOf(lane: nat, answer: LaneAnswer, late: bool, carried: bool, before: Code,
               a: Contest, starts: seq<Walk>, gives: seq<Walk>, b: Contest, result: Code)
    requires |a.cursors| == |a.pending| == |b.pending| == 2 && lane < 2
    requires a.pending[lane].Some? && !Wins(answer)
    requires if lane == 0 && Started(a, answer, late) then |starts| == 1 && starts[0].lane == 1 else starts == []
    requires if Errs(answer, carried) then
               && |gives| == 1 && gives[0].lane == lane && gives[0].failed == a.pending[lane]
               && result == ResultOf(before, gives[0], b.pending[1 - lane])
               && (b.pending[lane].Some? ==> gives[0].code == OK)
             else
               gives == [] && result == before
    ensures Turn(lane, answer, late, carried, before, a, starts + gives, b, Errs(answer, carried), result)
  {
    var ws := starts + gives;
    assert LanesOf(ws) == (if starts == [] then [] else [1]) + (if gives == [] then [] else [lane]);
    assert gives != [] ==> ws[|ws| - 1] == gives[0];
  }

  /** A lane with nothing pending is passed over. */
  lemma TurnOfNone(lane: nat, answer: LaneAnswer, late: bool, carried: bool, before: Code, a: Contest)
    requires |a.cursors| == |a.pending| == 2 && lane < 2 && a.pending[lane].None?
    ensures Turn(lane, answer, late, carried, before, a, [], a, carried, before)
  {
    assert LanesOf([]) == [];
  }

  lemma {:induction false} LeadSplit(addrs: seq<Family>, sockindex: nat, a: Contest, v: seq<Walk>, b: Contest,
                                     w: seq<Walk>, c: Contest)
    requires Lead(addrs, sockindex, a, v, b) && Lead(addrs, sockindex, a, v + w, c)
    ensures Lead(addrs, sockindex, b, w, c)
    decreases |v|
  {
    if v == [] {
      assert v + w == w;
    } else {
      assert (v + w)[1..] == v[1..] + w;
      LeadSplit(addrs, sockindex, Moved(a, v[0]), v[1..], b, w, c);
    }
  }

  /** How the first lane's turn begins and ends. */
  lemma FirstTurn(addrs: seq<Family>, sockindex: nat, poll: Poll, a: Contest, t: Trace)
    requires Paired(a) && Turns(addrs, sockindex, poll, a, t)
    ensures t.error0 == (a.pending[0].Some? && Errs(poll.lane0, false))
    ensures Paired(t.mid) && (a.cursors[1].Some? ==> t.mid.cursors[1].Some? && t.mid.pending[1] == a.pending[1])
    ensures LanesOf(t.first) == (if Started(a, poll.lane0, poll.late) then [1] else []) + (if t.error0 then [0] else [])
    ensures t.error0 ==> t.first != [] && t.first[|t.first| - 1].failed == a.pending[0]
    ensures (!t.error0 ==> Rests(t.first, 0)) && (a.cursors[1].Some? ==> Rests(t.first, 1))
  {
    if !t.error0 {
      LanesRest(t.first, 0);
    }
    RestingStays(addrs, sockindex, a, t.first, t.mid, 1);
    if a.cursors[1].Some? {
      LanesRest(t.first, 1);
    }
  }

  /** How the second lane's turn goes on. */
  lemma SecondTurn(addrs: seq<Family>, sockindex: nat, poll: Poll, a: Contest, t: Trace)
    requires Paired(a) && Turns(addrs, sockindex, poll, a, t)
    ensures Paired(t.end) && (t.mid.cursors[1].Some? ==> t.end.cursors[1].Some?)
    ensures var gives := t.mid.pending[1].Some? && Errs(poll.lane1, t.error0);
            && LanesOf(t.second) == (if gives then [1] else [])
            && (gives ==> t.second != [] && t.second[|t.second| - 1].failed == t.mid.pending[1])
            && (!gives ==> t.second == [] && t.end == t.mid && t.result1 == t.result0)
    ensures Rests(t.second, 0)
  {
    FirstTurn(addrs, sockindex, poll, a, t);
    LeadSplit(addrs, sockindex, a, t.first, t.mid, t.second, t.end);
    RestingStays(addrs, sockindex, t.mid, t.second, t.end, 1);
    LanesRest(t.second, 0);
    assert |LanesOf(t.second)| == |t.second|;
  }

  lemma RestsJoin(v: seq<Walk>, w: seq<Walk>, lane: nat)
    requires Rests(v, lane) && Rests(w, lane)
    ensures Rests(v + w, lane)
  {
  }

  /** Where a lane rests in all walks of a poll, it keeps its socket and its cursor. */
  lemma RestingKeeps(addrs: seq<Family>, sockindex: nat, a: Contest, first: seq<Walk>, second: seq<Walk>,
                     third: seq<Walk>, b: Contest, lane: nat)
    requires Paired(a) && lane < 2 && Lead(addrs, sockindex, a, first + second + third, b)
    requires Rests(first, lane) && Rests(second, lane) && Rests(third, lane)
    ensures |b.cursors| == |b.pending| == 2 && Keeps(a, first + second + third, b, lane)
  {
    RestsJoin(first, second, lane);
    RestsJoin(first + second, third, lane);
    RestingStays(addrs, sockindex, a, first + second + third, b, lane);
  }

  /** A lane that is not in error keeps its socket and its cursor. */
  lemma LanesKeep(addrs: seq<Family>, sockindex: nat, poll: Poll, a: Contest, t: Trace, third: seq<Walk>, b: Contest,
                  result: Code)
    requires Paired(a) && Turns(addrs, sockindex, poll, a, t) && LastWalk(t.end, third, b, t.result1, result)
    requires Lead(addrs, sockindex, a, t.first + t.second + third, b)
    ensures |b.cursors| == |b.pending| == 2
    ensures var ws, error0 := t.first + t.second + third, a.pending[0].Some? && Errs(poll.lane0, false);
            && (!error0 ==> Keeps(a, ws, b, 0))
            && (a.pending[1].Some? && !Errs(poll.lane1, error0) ==> Keeps(a, ws, b, 1))
  {
    FirstTurn(addrs, sockindex, poll, a, t);
    SecondTurn(addrs, sockindex, poll, a, t);
    RestingStays(addrs, sockindex, a, t.first + t.second + third, b, 0);
    if !t.error0 {
      RestingKeeps(addrs, sockindex, a, t.first, t.second, third, b, 0);
    }
    if a.pending[1].Some? && !Errs(poll.lane1, t.error0) {
      RestingKeeps(addrs, sockindex, a, t.first, t.second, third, b, 1);
    }
  }

  lemma InAll(first: seq<Walk>, second: seq<Walk>, third: seq<Walk>, w: Walk)
    ensures w in first || w in second || w in third ==> w in first + second + third
  {
  }

  /** A lane in error gives up its socket. */
  lemma LanesGiveUp(addrs: seq<Family>, sockindex: nat, poll: Poll, a: Contest, t: Trace, third: seq<Walk>)
    requires Paired(a) && Turns(addrs, sockindex, poll, a, t)
    ensures var ws, error0 := t.first + t.second + third, a.pending[0].Some? && Errs(poll.lane0, false);
            && (error0 ==> GivesUp(ws, 0, a.pending[0]))
            && (a.pending[1].Some? && Errs(poll.lane1, error0) ==> GivesUp(ws, 1, a.pending[1]))
            && (Started(a, poll.lane0, poll.late) ==> ws != [] && ws[0].lane == 1 && ws[0].cursors == a.cursors)
  {
    FirstTurn(addrs, sockindex, poll, a, t);
    SecondTurn(addrs, sockindex, poll, a, t);
    if t.error0 {
      var w := t.first[|t.first| - 1];
      assert LanesOf(t.first)[|t.first| - 1] == w.lane;
      InAll(t.first, t.second, third, w);
    }
    if a.pending[1].Some? && Errs(poll.lane1, t.error0) {
      var w := t.second[|t.second| - 1];
      assert LanesOf(t.second)[|t.second| - 1] == w.lane;
      InAll(t.first, t.second, third, w);
    }
    if Started(a, poll.lane0, poll.late) {
      assert LanesOf(t.first)[0] == t.first[0].lane;
    }
  }

  /** A failure of the first lane that counts: it is that of its walk, and the lane has nothing pending. */
  lemma FirstFails(addrs: seq<Family>, sockindex: nat, poll: Poll, a: Contest, t: Trace)
    requires Paired(a) && Turns(addrs, sockindex, poll, a, t) && t.result0 != OK
    ensures t.first != [] && t.first[|t.first| - 1].code == t.result0 && t.mid.pending[0].None?
    ensures t.result0 == CouldntConnect ==> t.mid.pending[1].None?
  {
  }

  lemma SecondFails(addrs: seq<Family>, sockindex: nat, poll: Poll, a: Contest, t: Trace)
    requires Paired(a) && Turns(addrs, sockindex, poll, a, t) && t.result1 != OK
    ensures exists w :: w in t.first + t.second && w.code == t.result1
    ensures Paired(t.end)
    ensures t.result1 == CouldntConnect || t.end.cursors[1].None? ==> t.end.pending == [None, None]
  {
    FirstTurn(addrs, sockindex, poll, a, t);
    SecondTurn(addrs, sockindex, poll, a, t);
    if t.result0 != OK {
      FirstFails(addrs, sockindex, poll, a, t);
      assert t.first[|t.first| - 1] in t.first + t.second;
    }
    if t.second != [] {
      assert t.second[|t.second| - 1] in t.first + t.second;
    }
  }

  lemma Fails(addrs: seq<Family>, sockindex: nat, poll: Poll, a: Contest, t: Trace, third: seq<Walk>, b: Contest,
              result: Code)
    requires Paired(a) && Turns(addrs, sockindex, poll, a, t) && LastWalk(t.end, third, b, t.result1, result)
    requires result != OK
    ensures exists w :: w in t.first + t.second + third && w.code == result
    ensures result == CouldntConnect ==> b.pending == [None, None]
  {
    SecondFails(addrs, sockindex, poll, a, t);
    if third == [] {
      var w :| w in t.first + t.second && w.code == t.result1;
      assert w in t.first + t.second + third;
    } else {
      assert third[0] in t.first + t.second + third;
    }
  }

  /** The first lane alone, in error. */
  lemma FirstAlone(addrs: seq<Family>, sockindex: nat, poll: Poll, a: Contest, t: Trace, third: seq<Walk>, b: Contest,
                   result: Code)
    requires Paired(a) && Turns(addrs, sockindex, poll, a, t) && LastWalk(t.end, third, b, t.result1, result)
    requires a.pending[0].Some? && Errs(poll.lane0, false)
    requires a.pending[1].None? && !Started(a, poll.lane0, poll.late)
    ensures var ws := t.first + t.second + third;
            && ws != [] && ws[0].lane == 0
            && if ws[0].code == OK || a.cursors[1].Some? then |ws| == 1 && result == ws[0].code
               else |ws| == 2 && ws[1].lane == 1 && result == ws[1].code
  {
    FirstTurn(addrs, sockindex, poll, a, t);
    assert LanesOf(t.first) == [0] && |t.first| == 1 && LanesOf(t.first)[0] == t.first[0].lane;
    LanesRest(t.first, 1);
    RestingStays(addrs, sockindex, a, t.first, t.mid, 1);
    SecondTurn(addrs, sockindex, poll, a, t);
    assert t.first + [] + third == t.first + third;
  }

  /** The second lane alone, in error. */
  lemma SecondAlone(addrs: seq<Family>, sockindex: nat, poll: Poll, a: Contest, t: Trace, third: seq<Walk>, b: Contest,
                    result: Code)
    requires Paired(a) && Turns(addrs, sockindex, poll, a, t) && LastWalk(t.end, third, b, t.result1, result)
    requires a.pending[0].None? && a.pending[1].Some? && Errs(poll.lane1, false)
    ensures var ws := t.first + t.second + third;
            |ws| == 1 && ws[0].lane == 1 && result == ws[0].code
  {
    FirstTurn(addrs, sockindex, poll, a, t);
    assert |LanesOf(t.first)| == |t.first|;
    LeadSplit(addrs, sockindex, a, [], a, t.first, t.mid);
    SecondTurn(addrs, sockindex, poll, a, t);
    assert LanesOf(t.second) == [1] && |t.second| == 1 && LanesOf(t.second)[0] == t.second[0].lane;
    LeadSplit(addrs, sockindex, a, t.first, t.mid, t.second, t.end);
    RestingStays(addrs, sockindex, t.mid, t.second, t.end, 1);
    LanesRest(t.second, 0);
    RestingStays(addrs, sockindex, t.mid, t.second, t.end, 0);
  }

  lemma TurnsMean(addrs: seq<Family>, sockindex: nat, poll: Poll, a: Contest, t: Trace, third: seq<Walk>, b: Contest,
                  result: Code)
    requires Paired(a) && Turns(addrs, sockindex, poll, a, t) && LastWalk(t.end, third, b, t.result1, result)
    requires Lead(addrs, sockindex, a, t.first + t.second + third, b)
    ensures |b.cursors| == |b.pending| == 2
    ensures LanesAnswered(a, poll, t.first + t.second + third, b)
    ensures Verdict(a, poll, t.first + t.second + third, b, result)
    ensures NobodyWon(a, poll)
  {
    FirstTurn(addrs, sockindex, poll, a, t);
    LanesKeep(addrs, sockindex, poll, a, t, third, b, result);
    LanesGiveUp(addrs, sockindex, poll, a, t, third);
    if result != OK {
      Fails(addrs, sockindex, poll, a, t, third, b, result);
    }
    if a.pending[0].Some? && Errs(poll.lane0, false) {
      if a.pending[1].None? && !Started(a, poll.lane0, poll.late) {
        FirstAlone(addrs, sockindex, poll, a, t, third, b, result);
      }
    } else if a.pending[0].None? && a.pending[1].Some? && Errs(poll.lane1, false) {
      SecondAlone(addrs, sockindex, poll, a, t, third, b, result);
    }
  }

  /** Cursors only move forward in the list. */
  ghost predicate Forward(before: seq<Option<nat>>, after: seq<Option<nat>>) {
    && |before| == |after|
    && forall i | 0 <= i < |before| && before[i].Some? :: after[i].Some? && before[i].value <= after[i].value
  }

  function Other(f: Family): Family {
    if f == INET then INET6 else INET
  }

  /** Every slot holds an open descriptor, every open descriptor is in a slot, and in one only. */
  ghost predicate Held(slots: seq<Option<nat>>, open: set<nat>) {
    && (forall i | 0 <= i < |slots| && slots[i].Some? :: slots[i].value in open)
    && (forall fd | fd in open :: exists i :: 0 <= i < |slots| && slots[i] == Some(fd))
    && (forall i, j | 0 <= i < j < |slots| && slots[i].Some? :: slots[i] != slots[j])
  }

  /** A slot changes hands: its old descriptor is closed, its new one was not open. */
  lemma HeldAfterSwap(slots: seq<Option<nat>>, open: set<nat>, k: nat, newer: Option<nat>)
    requires Held(slots, open) && k < |slots| && (newer.Some? ==> newer.value !in open)
    ensures Held(slots[k := newer], open + Fds(newer) - Fds(slots[k]))
  {
    var slots', open' := slots[k := newer], open + Fds(newer) - Fds(slots[k]);
    forall fd | fd in open' ensures exists i :: 0 <= i < |slots'| && slots'[i] == Some(fd) {
      if fd in open {
        var i :| 0 <= i < |slots| && slots[i] == Some(fd);
        assert slots'[i] == Some(fd);
      } else {
        assert slots'[k] == Some(fd);
      }
    }
  }

  /** Both pending slots are cleared without closing anything. */
  lemma Overwritten(tempsock: seq<Option<nat>>, sock: seq<Option<nat>>, open: set<nat>) returns (kept: set<nat>)
    requires |tempsock| == 2 && Held(tempsock + sock, open)
    ensures kept == open - Fds(tempsock[0]) - Fds(tempsock[1]) && Held([None, None] + sock, kept)
    ensures Fds(tempsock[0]) <= open && Fds(tempsock[1]) <= open
  {
    var slots := tempsock + sock;
    assert slots[0] == tempsock[0] && slots[1] == tempsock[1];
    HeldAfterSwap(slots, open, 0, None);
    HeldAfterSwap(slots[0 := None], open - Fds(tempsock[0]), 1, None);
    kept := open - Fds(tempsock[0]) - Fds(tempsock[1]);
    assert open + Fds(None) - Fds(tempsock[0]) == open - Fds(tempsock[0]);
    assert open - Fds(tempsock[0]) + Fds(None) - Fds(tempsock[1]) == kept;
    assert slots[0 := None][1 := None] == [None, None] + sock;
  }

  /** A descriptor moves from one slot to an empty one. */
  lemma HeldAfterMove(slots: seq<Option<nat>>, open: set<nat>, from: nat, to: nat)
    requires Held(slots, open) && from < |slots| && to < |slots| && from != to && slots[to].None?
    ensures Held(slots[to := slots[from]][from := None], open)
  {
    var moved := slots[to := slots[from]][from := None];
    forall fd | fd in open ensures exists i :: 0 <= i < |moved| && moved[i] == Some(fd) {
      var i :| 0 <= i < |slots| && slots[i] == Some(fd);
      assert moved[if i == from then to else i] == Some(fd);
    }
  }

  lemma OpenAreUsed(sock: seq<Option<nat>>, open: set<nat>, tempsock: seq<Option<nat>>)
    requires |sock| == 2 && tempsock == [None, None] && Held(tempsock + sock, open)
    ensures open == Fds(sock[0]) + Fds(sock[1])
  {
    assert (tempsock + sock)[2] == sock[0] && (tempsock + sock)[3] == sock[1];
  }

  lemma UpdateTwice<T>(s: seq<T>, i: nat, x: T, y: T)
    requires i < |s|
    ensures s[i := x][i := y] == s[i := y]
  {
  }

  lemma UpdateFront<T>(s: seq<T>, t: seq<T>, i: nat, x: T)
    requires i < |s|
    ensures s[i := x] + t == (s + t)[i := x]
  {
  }

  lemma SuffixGrows<T>(s: seq<T>, t: seq<T>, m: nat)
    requires m <= |s| && s <= t
    ensures t[m..] == s[m..] + t[|s|..]
  {
  }

  function Fds(s: Option<nat>): set<nat> {
    if s.Some? then {s.value} else {}
  }

  lemma FreeDescriptor(s: set<nat>) returns (bound: nat)
    ensures forall fd | fd in s :: fd < bound
    decreases s
  {
    if s == {} {
      bound := 0;
    } else {
      var fd :| fd in s;
      var rest := FreeDescriptor(s - {fd});
      bound := if rest <= fd then fd + 1 else rest;
      forall x | x in s ensures x < bound {
        assert x == fd || x in s - {fd};
      }
    }
  }

  class Connection {
    var addrs: seq<Family>
    var tempaddr: seq<Option<nat>>
    var tempsock: seq<Option<nat>>
    var sock: seq<Option<nat>>
    var tcpconnect: seq<bool>
    var open: set<nat>
    var tries: seq<Try>
    ghost var walks: seq<Walk>   // the calls of trynextip

    /** The pending sockets and the sockets in use. */
    ghost function Slots(): seq<Option<nat>>
      reads this
    {
      tempsock + sock
    }

    ghost function Now(): Contest
      reads this
    {
      Contest(tempaddr, tempsock)
    }

    ghost predicate Shape()
      reads this
    {
      |tempsock| == |sock| == |tcpconnect| == 2 && Cursors(addrs, tempaddr) && Paired(Now())
    }

    ghost predicate Valid()
      reads this
    {
      Shape() && Held(Slots(), open)
    }

    constructor ()
      ensures Valid() && open == {} && tempsock == [None, None] && sock == [None, None] && tcpconnect == [false, false]
    {
      addrs, tries, open, walks := [], [], {}, [];
      tempaddr, tempsock, sock, tcpconnect := [None, None], [None, None], [None, None], [false, false];
    }

    /** Curl_socket: the kernel picks any descriptor that is not open. */
    method OpenSocket() returns (fd: nat)
      modifies this`open
      ensures fd !in old(open) && open == old(open) + {fd}
    {
      ghost var bound := FreeDescriptor(open);
      assert bound !in open;
      fd :| fd !in open;
      open := open + {fd};
    }

    /** Curl_closesocket: only an open descriptor can be closed. */
    method CloseSocket(fd: nat)
      requires fd in open
      modifies this`open
      ensures open == old(open) - {fd}
    {
      open := open - {fd};
    }

    /** Curl_closesocket, unless there is none. */
    method CloseIfAny(s: Option<nat>)
      requires Fds(s) <= open
      modifies this`open
      ensures open == old(open) - Fds(s)
    {
      if s.Some? {
        CloseSocket(s.value);
      }
    }

    /** singleipconnect: whatever happens, the socket is handed out or closed again. */
    method SingleIpConnect(lane: nat, ai: nat, attempt: Attempt) returns (result: Code, sockp: Option<nat>)
      modifies this`open, this`tries
      ensures sockp.Some? <==> attempt in {NotStream, Pending}
      ensures result == OK <==> attempt in {NoSocket, BadAddress, NotStream, Pending}
      ensures result == CouldntConnect <==> attempt in {FamilyUnsupported, ImmediateFailure}
      ensures attempt.BindFailure? ==> result == OtherError(attempt.code)
      ensures sockp.Some? ==> result == OK && sockp.value !in old(open) && open == old(open) + {sockp.value}
      ensures sockp.None? ==> open == old(open)
      ensures tries == old(tries) + [Try(lane, ai, result, sockp)] && result != OperationTimedOut
    {
      sockp := None;
      if attempt == NoSocket {
        result := OK;
      } else {
        var sockfd := OpenSocket();
        match attempt {
          case BadAddress =>
            CloseSocket(sockfd);
            result := OK;
          case CallbackAbort =>
            CloseSocket(sockfd);
            result := OtherError(42);
          case FamilyUnsupported =>
            CloseSocket(sockfd);
            result := CouldntConnect;
          case BindFailure(code) =>
            CloseSocket(sockfd);
            result := OtherError(code);
          case ImmediateFailure =>
            CloseSocket(sockfd);
            result := CouldntConnect;
          case _ =>
            sockp, result := Some(sockfd), OK;
        }
      }
      tries := tries + [Try(lane, ai, result, sockp)];
    }

    /** The next address of the family. */
    method SkipOthers(from: nat, family: Family) returns (ai: nat)
      requires from <= |addrs|
      ensures from <= ai <= |addrs|
      ensures forall k | from <= k < ai :: addrs[k] != family
      ensures ai < |addrs| ==> addrs[ai] == family
    {
      ai := from;
      while ai < |addrs| && addrs[ai] != family
        invariant from <= ai <= |addrs|
        invariant forall k | from <= k < ai :: addrs[k] != family
      {
        ai := ai + 1;
      }
    }

    /** The inner loop of trynextip: while the other lane is busy, its family is skipped. */
    method NextMatch(ai: nat, family: Family, narrow: bool, ghost start: nat, ghost round: seq<Try>) returns (to: nat)
      requires Reached(round, addrs, start, ai, if narrow then Some(family) else None)
      ensures ai <= to <= |addrs| && (to < |addrs| && narrow ==> addrs[to] == family)
      ensures Reached(round, addrs, start, to, if narrow then Some(family) else None)
    {
      to := ai;
      if narrow {
        to := SkipOthers(ai, family);
        ReachedBySkipping(round, addrs, start, ai, to, family);
      }
    }

    /** The loop of trynextip: walk the list until an attempt does not fail on the spot. */
    method WalkList(lane: nat, start: nat, family: Family, narrow: bool)
      returns (result: Code, ai: nat, s: Option<nat>)
      requires start <= |addrs|
      modifies this`open, this`tries
      ensures old(tries) <= tries && OfLane(tries[|old(tries)|..], lane)
      ensures Round(tries[|old(tries)|..], Candidates(addrs, start, if narrow then Some(family) else None), result)
      ensures result == CouldntConnect ==> open == old(open)
      ensures result != CouldntConnect ==>
                && |tries| > |old(tries)| && tries[|tries| - 1] == Try(lane, ai, result, s)
                && Fds(s) !! old(open) && open == old(open) + Fds(s) && (s.Some? ==> result == OK)
                && start <= ai < |addrs| && (narrow ==> addrs[ai] == family)
    {
      ai, s := start, None;
      result := CouldntConnect;
      ghost var wanted := if narrow then Some(family) else None;
      ghost var round: seq<Try> := [];
      while ai < |addrs|
        invariant Reached(round, addrs, start, ai, wanted) && open == old(open)
        invariant tries == old(tries) + round && AllRefused(round) && OfLane(round, lane) && result == CouldntConnect
      {
        ai := NextMatch(ai, family, narrow, start, round);
        if ai < |addrs| {
          var attempt: Attempt := *;
          result, s := SingleIpConnect(lane, ai, attempt);
          ReachedByTrying(round, addrs, start, ai, wanted, Try(lane, ai, result, s));
          round := round + [Try(lane, ai, result, s)];
          if result == CouldntConnect {
            ai := ai + 1;
            continue;
          }
        }
        break;
      }
      assert tries[|old(tries)|..] == round;
      RoundEnds(round, addrs, start, if result == CouldntConnect then ai else ai + 1, wanted, result);
    }

    /** The lane's search: after its own cursor, or in the other family after the first lane's. */
    method Search(lane: nat) returns (result: Code)
      requires Shape() && lane < 2 && tempsock[lane].None?
      modifies this`tempaddr, this`tempsock, this`open, this`tries
      ensures Shape() && old(tries) <= tries && Forward(old(tempaddr), tempaddr)
      ensures OfLane(tries[|old(tries)|..], lane)
      ensures LaneRound(addrs, old(tempaddr), lane, tries[|old(tries)|..], result)
      ensures result == CouldntConnect ==> tempaddr == old(tempaddr) && tempsock == old(tempsock) && open == old(open)
      ensures result != CouldntConnect ==>
                && tries != []
                && var t := tries[|tries| - 1];
                   && tempaddr == old(tempaddr)[lane := Some(t.addr)] && tempsock == old(tempsock)[lane := t.sock]
                   && Fds(t.sock) !! old(open) && open == old(open) + Fds(t.sock) && (t.sock.Some? ==> result == OK)
    {
      var start, family;
      if tempaddr[lane].Some? {
        start, family := tempaddr[lane].value + 1, addrs[tempaddr[lane].value];
      } else if tempaddr[0].Some? {
        start, family := tempaddr[0].value + 1, Other(addrs[tempaddr[0].value]);
      } else {
        return CouldntConnect;
      }
      var ai, s;
      result, ai, s := WalkList(lane, start, family, tempaddr[1 - lane].Some?);
      if result != CouldntConnect {
        tempsock, tempaddr := tempsock[lane := s], tempaddr[lane := Some(ai)];
      }
    }

    /** trynextip between taking the failed socket and closing it; a secondary socket has one address only. */
    method Advance(sockindex: nat, lane: nat) returns (result: Code)
      requires Shape() && lane < 2 && tempsock[lane].None?
      modifies this`tempaddr, this`tempsock, this`open, this`tries
      ensures Shape() && old(tries) <= tries && Forward(old(tempaddr), tempaddr)
      ensures sockindex == 0 ==> LaneRound(addrs, old(tempaddr), lane, tries[|old(tries)|..], result)
      ensures sockindex != 0 ==> tries == old(tries) && result == CouldntConnect
      ensures OfLane(tries[|old(tries)|..], lane) && Ascends(tries[|old(tries)|..])
      ensures InLanes(addrs, old(tempaddr), tempaddr, tries[|old(tries)|..])
      ensures tempsock == old(tempsock)[lane := tempsock[lane]]
      ensures Fds(tempsock[lane]) !! old(open) && open == old(open) + Fds(tempsock[lane])
      ensures result == CouldntConnect ==> tempaddr == old(tempaddr) && tempsock[lane].None?
      ensures tempsock[lane].Some? ==> result == OK
      ensures result != CouldntConnect ==>
                && tries != []
                && tempaddr == old(tempaddr)[lane := Some(tries[|tries| - 1].addr)]
                && tempsock[lane] == tries[|tries| - 1].sock
    {
      result := CouldntConnect;
      if sockindex == 0 {
        result := Search(lane);
        RoundInLane(addrs, old(tempaddr), lane, tries[|old(tries)|..], result);
      }
    }

    /** trynextip, but for the log. */
    method Replace(sockindex: nat, lane: nat) returns (result: Code)
      requires Valid() && sockindex < 2 && lane < 2
      modifies this`tempaddr, this`tempsock, this`open, this`tries
      ensures Valid() && old(tries) <= tries && Forward(old(tempaddr), tempaddr)
      // the failed socket is closed, after the next one was opened
      ensures old(tempsock[lane]).Some? ==> old(tempsock[lane]).value !in open
      // the lane's remaining addresses are tried in order; none for a secondary socket
      ensures sockindex == 0 ==> LaneRound(addrs, old(tempaddr), lane, tries[|old(tries)|..], result)
      ensures sockindex != 0 ==> tries == old(tries) && result == CouldntConnect
      // the attempts go forward; with both cursors set, they stay in the lane's family
      ensures OfLane(tries[|old(tries)|..], lane) && Ascends(tries[|old(tries)|..])
      ensures InLanes(addrs, old(tempaddr), tempaddr, tries[|old(tries)|..])
      // the lane moves to the last attempt, unless it failed on the spot; the other lane stays
      ensures tempsock[lane].Some? ==> result == OK
      ensures result == CouldntConnect ==> tempaddr == old(tempaddr) && tempsock == old(tempsock)[lane := None]
      ensures result != CouldntConnect ==>
                && tries != []
                && tempaddr == old(tempaddr)[lane := Some(tries[|tries| - 1].addr)]
                && tempsock == old(tempsock)[lane := tries[|tries| - 1].sock]
    {
      var fd_to_close := tempsock[lane];
      assert Slots()[lane] == fd_to_close;
      tempsock := tempsock[lane := None];
      result := Advance(sockindex, lane);
      HeldAfterSwap(old(Slots()), old(open), lane, tempsock[lane]);
      CloseIfAny(fd_to_close);
      UpdateTwice(old(tempsock), lane, None, tempsock[lane]);
      UpdateFront(old(tempsock), sock, lane, tempsock[lane]);
    }

    /** trynextip. */
    method TryNextIp(sockindex: nat, lane: nat) returns (result: Code)
      requires Valid() && sockindex < 2 && lane < 2
      modifies this`tempaddr, this`tempsock, this`open, this`tries, this`walks
      ensures Valid() && old(tries) <= tries && Forward(old(tempaddr), tempaddr)
      ensures var w := Walk(lane, old(tempaddr), old(tempsock)[lane], tries[|old(tries)|..], result);
              && walks == old(walks) + [w]
              && WalksFrom(addrs, sockindex, old(Now()), w) && Now() == Moved(old(Now()), w)
      // every attempt lies behind the cursor that the lane started from
      ensures Ahead(old(tempaddr), lane, tries[|old(tries)|..])
      // the failed socket is closed, after the next one was opened
      ensures old(tempsock[lane]).Some? ==> old(tempsock[lane]).value !in open
      // the lane's remaining addresses are tried in order; none for a secondary socket
      ensures sockindex == 0 ==> LaneRound(addrs, old(tempaddr), lane, tries[|old(tries)|..], result)
      ensures sockindex != 0 ==> tries == old(tries) && result == CouldntConnect
      // the attempts go forward; with both cursors set, they stay in the lane's family
      ensures OfLane(tries[|old(tries)|..], lane) && Ascends(tries[|old(tries)|..])
      ensures InLanes(addrs, old(tempaddr), tempaddr, tries[|old(tries)|..])
      // the lane moves to the last attempt, unless it failed on the spot; the other lane stays
      ensures tempsock[lane].Some? ==> result == OK
      ensures result == CouldntConnect ==> tempaddr == old(tempaddr) && tempsock == old(tempsock)[lane := None]
      ensures result != CouldntConnect ==>
                && tries != []
                && tempaddr == old(tempaddr)[lane := Some(tries[|tries| - 1].addr)]
                && tempsock == old(tempsock)[lane := tries[|tries| - 1].sock]
    {
      result := Replace(sockindex, lane);
      if sockindex == 0 {
        RoundIsAhead(addrs, old(tempaddr), lane, tries[|old(tries)|..], result);
      }
      walks := walks + [Walk(lane, old(tempaddr), old(tempsock)[lane], tries[|old(tries)|..], result)];
    }

    /** A pending socket is closed, if there is one. */
    method CloseLane(lane: nat)
      requires Valid() && lane < 2
      modifies this`tempsock, this`open
      ensures Valid() && tempsock == old(tempsock)[lane := None] && open == old(open) - Fds(old(tempsock)[lane])
    {
      var s := tempsock[lane];
      assert Slots()[lane] == s;
      HeldAfterSwap(Slots(), open, lane, None);
      CloseIfAny(s);
      tempsock := tempsock[lane := None];
      UpdateFront(old(tempsock), sock, lane, None);
    }

    /** Curl_is_connected: a lane has won; the other one is closed. */
    method Adopt(sockindex: nat, lane: nat)
      requires Valid() && sockindex < 2 && lane < 2 && tempsock[lane].Some? && sock[sockindex].None?
      modifies this`tempsock, this`sock, this`open
      ensures Valid() && tempsock == [None, None]
      ensures sock == old(sock)[sockindex := old(tempsock)[lane]]
      ensures open == old(open) - Fds(old(tempsock)[1 - lane])
    {
      var other := 1 - lane;
      assert Slots()[lane] == tempsock[lane] && Slots()[other] == tempsock[other] && Slots()[2 + sockindex] == None;
      sock := sock[sockindex := tempsock[lane]];
      tempsock := tempsock[lane := None];
      assert Slots() == old(Slots())[2 + sockindex := old(Slots())[lane]][lane := None];
      HeldAfterMove(old(Slots()), open, lane, 2 + sockindex);
      CloseLane(other);
    }

    /** Since the lanes were at `origin`, with `m` walks and `n` attempts made, the walks from there have led here. */
    ghost predicate Since(sockindex: nat, origin: Contest, m: nat, n: nat)
      reads this
    {
      && m <= |walks| && n <= |tries| && Cursors(addrs, origin.cursors) && Cursors(addrs, tempaddr)
      && Lead(addrs, sockindex, origin, walks[m..], Now())
      && Forward(origin.cursors, tempaddr) && InLanes(addrs, origin.cursors, tempaddr, tries[n..])
    }

    /** trynextip, as one of the calls of a poll. */
    method Retry(sockindex: nat, lane: nat, ghost origin: Contest, ghost m: nat, ghost n: nat)
      returns (result: Code, ghost w: Walk)
      requires Valid() && sockindex < 2 && lane < 2 && Since(sockindex, origin, m, n)
      modifies this`tempaddr, this`tempsock, this`open, this`tries, this`walks
      ensures Valid() && old(tries) <= tries && Since(sockindex, origin, m, n)
      ensures walks == old(walks) + [w] && w.lane == lane && w.code == result && w.failed == old(tempsock)[lane]
      ensures w.cursors == old(tempaddr) && Now() == Moved(old(Now()), w) && (tempsock[lane].Some? ==> result == OK)
    {
      result := TryNextIp(sockindex, lane);
      w := walks[|old(walks)|];
      ghost var added := tries[|old(tries)|..];
      InLanesOn(addrs, origin.cursors, old(tempaddr), tempaddr, old(tries)[n..], added);
      SuffixGrows(old(tries), tries, n);
      LeadOn(addrs, sockindex, origin, old(walks)[m..], old(Now()), w);
      SuffixGrows(old(walks), walks, m);
      assert walks[|old(walks)|..] == [w];
    }

    /** The second lane is started when the first is still on its way and late. */
    method StartSecond(sockindex: nat, lane: nat, answer: LaneAnswer, late: bool,
                       ghost origin: Contest, ghost m: nat, ghost n: nat)
      returns (ghost ws: seq<Walk>)
      requires Valid() && sockindex < 2 && lane < 2 && Since(sockindex, origin, m, n) && tempsock[lane].Some?
      modifies this`tempaddr, this`tempsock, this`open, this`tries, this`walks
      ensures Valid() && old(tries) <= tries && Since(sockindex, origin, m, n) && walks == old(walks) + ws
      ensures tempsock[lane] == old(tempsock)[lane] && tempaddr[lane] == old(tempaddr)[lane]
      ensures if lane == 0 && Started(old(Now()), answer, late) then
                |ws| == 1 && ws[0].lane == 1 && ws[0].cursors == old(tempaddr)
              else
                ws == []
    {
      ws := [];
      if answer.ready == NotYet && lane == 0 && tempaddr[1].None? && late {
        ghost var w;
        var status;
        status, w := Retry(sockindex, 1, origin, m, n);
        ws := [w];
      }
    }

    /** A lane in error gives up its socket for its next address. */
    method GiveUp(sockindex: nat, lane: nat, error: bool, before: Code,
                  ghost origin: Contest, ghost m: nat, ghost n: nat)
      returns (result: Code, ghost ws: seq<Walk>)
      requires Valid() && sockindex < 2 && lane < 2 && Since(sockindex, origin, m, n) && tempsock[lane].Some?
      modifies this`tempaddr, this`tempsock, this`open, this`tries, this`walks
      ensures Valid() && old(tries) <= tries && Since(sockindex, origin, m, n) && walks == old(walks) + ws
      ensures if error then
                && |ws| == 1 && ws[0].lane == lane && ws[0].failed == old(tempsock)[lane]
                && result == ResultOf(before, ws[0], tempsock[1 - lane]) && (tempsock[lane].Some? ==> ws[0].code == OK)
              else
                ws == [] && result == before && Now() == old(Now()) && open == old(open) && tries == old(tries)
    {
      result, ws := before, [];
      var other := 1 - lane;
      if error && tempaddr[lane].Some? {
        ghost var w;
        var status;
        status, w := Retry(sockindex, lane, origin, m, n);
        ws := [w];
        if status != CouldntConnect || tempsock[other].None? {
          result := status;
        }
      }
    }

    /** One round of the loop of Curl_is_connected, for a lane that is pending and does not win. */
    method LoseTurn(sockindex: nat, lane: nat, answer: LaneAnswer, late: bool, carried: bool, before: Code,
                    ghost origin: Contest, ghost m: nat, ghost n: nat)
      returns (error: bool, result: Code)
      requires Valid() && sockindex < 2 && lane < 2 && Since(sockindex, origin, m, n)
      requires tempsock[lane].Some? && !Wins(answer)
      modifies this`tempaddr, this`tempsock, this`open, this`tries, this`walks
      ensures Valid() && old(tries) <= tries && old(walks) <= walks && Since(sockindex, origin, m, n)
      ensures Turn(lane, answer, late, carried, before, old(Now()), walks[|old(walks)|..], Now(), error, result)
    {
      error := carried;
      match answer.ready {
        case NotYet =>
          if answer.slow {
            error := true;
          }
        case Writable =>
          error := true;
        case InError =>
          error := answer.failing;
        case OtherBits =>
      }
      ghost var starts := StartSecond(sockindex, lane, answer, late, origin, m, n);
      ghost var gives;
      result, gives := GiveUp(sockindex, lane, error, before, origin, m, n);
      TurnOf(lane, answer, late, carried, before, old(Now()), starts, gives, Now(), result);
      assert walks[|old(walks)|..] == starts + gives;
    }

    /** Curl_is_connected: one round of its loop. */
    method PollLane(sockindex: nat, lane: nat, answer: LaneAnswer, late: bool, carried: bool, before: Code,
                    ghost origin: Contest, ghost m: nat, ghost n: nat)
      returns (won: bool, error: bool, result: Code)
      requires Valid() && sockindex < 2 && lane < 2 && Racing(sockindex) && Since(sockindex, origin, m, n)
      modifies this`tempaddr, this`tempsock, this`sock, this`open, this`tries, this`walks
      ensures Valid() && old(tries) <= tries && old(walks) <= walks
      ensures won <==> old(tempsock)[lane].Some? && Wins(answer)
      ensures won ==>
                && tempaddr == old(tempaddr) && tries == old(tries) && walks == old(walks)
                && tempsock == [None, None] && sock == old(sock)[sockindex := old(tempsock)[lane]]
                && open == Fds(sock[0]) + Fds(sock[1])
      ensures !won ==>
                && Since(sockindex, origin, m, n) && sock == old(sock) && Racing(sockindex)
                && Turn(lane, answer, late, carried, before,
                        old(Now()), walks[|old(walks)|..], Now(), error, result)
    {
      won, error, result := false, carried, before;
      if tempsock[lane].None? {
        TurnOfNone(lane, answer, late, carried, before, Now());
        assert walks[|walks|..] == [];
        return;
      }
      if answer.ready == Writable && answer.verified {
        Adopt(sockindex, lane);
        OpenAreUsed(sock, open, tempsock);
        won := true;
      } else {
        error, result := LoseTurn(sockindex, lane, answer, late, carried, before, origin, m, n);
      }
    }

    /** A socket is adopted only when nothing is pending any more. */
    ghost predicate Racing(sockindex: nat)
      requires |sock| == |tcpconnect| == 2 && sockindex < 2
      reads this
    {
      && (sock[sockindex].Some? ==> tempsock == [None, None])
      && (tcpconnect[sockindex] ==> sock[sockindex].Some?)
    }

    /** The state of the loop of Curl_connecthost: everything tried so far has failed. */
    ghost predicate Failing(before: seq<Try>, round: seq<Try>, result: Code)
      reads this
    {
      && tries == before + round && Reached(round, addrs, 0, |round|, None) && OfLane(round, 0)
      && tempsock == [None, None] && tempaddr == [if |round| < |addrs| then Some(|round|) else None, None]
      && (forall i | 0 <= i < |round| :: round[i].code != OK)
      && (round != [] ==> round[|round| - 1].code == result && round[|round| - 1].sock.None?)
    }

    /** One round of the loop. */
    method FirstAttempt(ghost before: seq<Try>, ghost round: seq<Try>, ghost code: Code)
      returns (result: Code, ghost next: seq<Try>)
      requires Failing(before, round, code) && tempaddr[0].Some?
      modifies this`tempaddr, this`tempsock, this`open, this`tries
      ensures result != OperationTimedOut && |next| == |round| + 1 && tries == before + next
      ensures if result == OK then FirstRound(addrs, next, result, tempaddr, tempsock)
              else Failing(before, next, result) && open == old(open)
      ensures Fds(next[|round|].sock) !! old(open) && open == old(open) + Fds(next[|round|].sock)
    {
      var s;
      var ai, attempt: Attempt := tempaddr[0].value, *;
      result, s := SingleIpConnect(0, ai, attempt);
      tempsock := tempsock[0 := s];
      next := round + [Try(0, ai, result, s)];
      ReachedByTrying(round, addrs, 0, ai, None, Try(0, ai, result, s));
      if result != OK {
        tempaddr := tempaddr[0 := if ai + 1 < |addrs| then Some(ai + 1) else None];
      }
    }

    /** The loop of Curl_connecthost: start with the first address whose attempt does not fail. */
    method FirstAttempts() returns (result: Code)
      requires addrs != [] && tempaddr == [Some(0), None] && tempsock == [None, None]
      modifies this`tempaddr, this`tempsock, this`open, this`tries
      ensures result != OperationTimedOut && old(tries) <= tries
      ensures FirstRound(addrs, tries[|old(tries)|..], result, tempaddr, tempsock)
      ensures Fds(tempsock[0]) !! old(open) && open == old(open) + Fds(tempsock[0])
    {
      result := CouldntConnect;
      ghost var round: seq<Try> := [];
      while tempaddr[0].Some?
        invariant result != OperationTimedOut && Failing(old(tries), round, result) && open == old(open)
        decreases |addrs| - |round|
      {
        result, round := FirstAttempt(old(tries), round, result);
        assert tries[|old(tries)|..] == round;
        if result == OK {
          return;
        }
      }
      assert tries[|old(tries)|..] == round;
    }

    /**
     Curl_connecthost. The slots for pending sockets are overwritten: a socket still in one of them would
     stay open and no longer be accounted for, so callers start a race with both slots empty.
     */
    method ConnectHost(list: seq<Family>, expired: bool) returns (result: Code)
      requires Valid() && list != []
      modifies this`addrs, this`tempaddr, this`tempsock, this`open, this`tries
      ensures Shape() && old(tries) <= tries
      ensures expired ==> unchanged(this)
      ensures result == OperationTimedOut <==> expired
      ensures result != OperationTimedOut ==>
                && addrs == list && FirstRound(list, tries[|old(tries)|..], result, tempaddr, tempsock)
                && Held(Slots(), open - Fds(old(tempsock)[0]) - Fds(old(tempsock)[1]))
      ensures old(tempsock) == [None, None] ==> Valid() && tempsock[1] == None
    {
      if expired {
        return OperationTimedOut;
      }
      addrs := list;
      tempaddr := [Some(0), None];
      tempsock := [None, None];
      ghost var kept := Overwritten(old(tempsock), sock, open);
      result := FirstAttempts();
      HeldAfterSwap([None, None] + sock, kept, 0, tempsock[0]);
      assert Slots() == ([None, None] + sock)[0 := tempsock[0]];
      assert kept + Fds(tempsock[0]) == open - Fds(old(tempsock)[0]) - Fds(old(tempsock)[1]);
    }

    /** conn_free: the sockets that are left are closed. */
    method CloseAll()
      requires Valid()
      modifies this`tempsock, this`sock, this`open
      ensures open == {}
    {
      assert Slots()[0] == tempsock[0] && Slots()[1] == tempsock[1] && Slots()[2] == sock[0] && Slots()[3] == sock[1];
      if sock[1].Some? {
        CloseSocket(sock[1].value);
      }
      if sock[0].Some? {
        CloseSocket(sock[0].value);
      }
      if tempsock[0].Some? {
        CloseSocket(tempsock[0].value);
      }
      if tempsock[1].Some? {
        CloseSocket(tempsock[1].value);
      }
    }

    /** One round of the loop, as part of a poll. */
    method NextTurn(sockindex: nat, lane: nat, poll: Poll, carried: bool, before: Code,
                    ghost a: Contest, ghost m: nat, ghost n: nat, ghost t: Trace)
      returns (won: bool, error: bool, result: Code, ghost t': Trace)
      requires Valid() && sockindex < 2 && lane < 2 && Racing(sockindex) && Since(sockindex, a, m, n) && Paired(a)
      requires SoFar(lane, addrs, sockindex, poll, a, t, walks[m..], Now(), carried, before)
      requires before != OK ==> sock[sockindex].None?
      modifies this`tempaddr, this`tempsock, this`sock, this`open, this`tries, this`walks
      ensures Valid() && Racing(sockindex) && old(tries) <= tries && old(walks) <= walks
      ensures won ==>
                && tempaddr == old(tempaddr) && tries == old(tries) && walks == old(walks)
                && old(sock[sockindex]).None? && sock == old(sock)[sockindex := sock[sockindex]]
                && tempsock == [None, None] && open == Fds(sock[0]) + Fds(sock[1])
                && IsWinner(poll, a, sock[sockindex])
      ensures !won ==>
                && Since(sockindex, a, m, n) && sock == old(sock) && (result != OK ==> sock[sockindex].None?)
                && SoFar(lane + 1, addrs, sockindex, poll, a, t', walks[m..], Now(), error, result)
    {
      t' := t;
      var answer := if lane == 0 then poll.lane0 else poll.lane1;
      won, error, result := PollLane(sockindex, lane, answer, poll.late, carried, before, a, m, n);
      if won {
        if lane == 1 {
          SecondCanWin(addrs, sockindex, poll, a, t, walks[m..], old(Now()), carried, before);
        }
      } else {
        ghost var more := walks[|old(walks)|..];
        SuffixGrows(old(walks), walks, m);
        t' := SoFarOn(lane, addrs, sockindex, poll, a, t, old(walks)[m..], old(Now()), carried, before,
                      more, Now(), error, result);
      }
    }

    /** The loop of Curl_is_connected, up to a win. */
    method PollLanes(sockindex: nat, poll: Poll) returns (won: bool, result: Code, ghost t: Trace)
      requires Valid() && sockindex < 2 && Racing(sockindex)
      modifies this`tempaddr, this`tempsock, this`sock, this`open, this`tries, this`walks
      ensures Valid() && Racing(sockindex) && old(tries) <= tries && old(walks) <= walks
      ensures Forward(old(tempaddr), tempaddr) && InLanes(addrs, old(tempaddr), tempaddr, tries[|old(tries)|..])
      ensures won ==>
                && old(sock[sockindex]).None? && sock == old(sock)[sockindex := sock[sockindex]]
                && tempsock == [None, None] && open == Fds(sock[0]) + Fds(sock[1])
                && IsWinner(poll, old(Now()), sock[sockindex])
      ensures !won ==>
                && sock == old(sock) && Since(sockindex, old(Now()), |old(walks)|, |old(tries)|)
                && (result != OK ==> sock[sockindex].None?)
                && SoFar(2, addrs, sockindex, poll, old(Now()), t, walks[|old(walks)|..], Now(), t.error1, result)
    {
      ghost var a, m, n := Now(), |walks|, |tries|;
      assert walks[m..] == [] && tries[n..] == [];
      t := Trace([], a, false, OK, [], a, false, OK);
      won, result := false, OK;
      var error := false;
      for i := 0 to 2
        invariant Valid() && Racing(sockindex) && old(tries) <= tries && old(walks) <= walks
        invariant Since(sockindex, a, m, n) && sock == old(sock)
        invariant SoFar(i, addrs, sockindex, poll, a, t, walks[m..], Now(), error, result)
        invariant result != OK ==> sock[sockindex].None?
      {
        won, error, result, t := NextTurn(sockindex, i, poll, error, result, a, m, n, t);
        if won {
          return;
        }
      }
    }

    /** The end of Curl_is_connected: the second family gets its first attempt. */
    method LastChance(sockindex: nat, before: Code, ghost a: Contest, ghost m: nat, ghost n: nat)
      returns (result: Code, ghost third: seq<Walk>)
      requires Valid() && sockindex < 2 && Racing(sockindex) && Since(sockindex, a, m, n)
      requires before != OK ==> sock[sockindex].None?
      modifies this`tempaddr, this`tempsock, this`open, this`tries, this`walks
      ensures Valid() && Racing(sockindex) && Since(sockindex, a, m, n) && old(tries) <= tries
      ensures LastWalk(old(Now()), third, Now(), before, result)
      ensures old(walks) <= walks && walks[|old(walks)|..] == third
    {
      result, third := before, [];
      if result != OK && tempaddr[1].None? {
        // the first family ran out of addresses before the timeout
        ghost var w;
        result, w := Retry(sockindex, 1, a, m, n);
        third := [w];
      }
    }

    /** Curl_is_connected without its checks before the loop and what follows a win. */
    method PollAll(sockindex: nat, poll: Poll) returns (won: bool, result: Code)
      requires Valid() && sockindex < 2 && Racing(sockindex)
      modifies this`tempaddr, this`tempsock, this`sock, this`open, this`tries, this`walks
      ensures Valid() && Racing(sockindex) && old(tries) <= tries && old(walks) <= walks
      ensures Forward(old(tempaddr), tempaddr) && InLanes(addrs, old(tempaddr), tempaddr, tries[|old(tries)|..])
      ensures won ==>
                && old(sock[sockindex]).None? && sock == old(sock)[sockindex := sock[sockindex]]
                && tempsock == [None, None] && open == Fds(sock[0]) + Fds(sock[1])
                && IsWinner(poll, old(Now()), sock[sockindex])
      ensures !won ==>
                && sock == old(sock) && NobodyWon(old(Now()), poll)
                && Lead(addrs, sockindex, old(Now()), walks[|old(walks)|..], Now())
                && LanesAnswered(old(Now()), poll, walks[|old(walks)|..], Now())
                && Verdict(old(Now()), poll, walks[|old(walks)|..], Now(), result)
    {
      ghost var a, m, n := Now(), |walks|, |tries|;
      ghost var t;
      won, result, t := PollLanes(sockindex, poll);
      if won {
        return;
      }
      ghost var two, third := walks, [];
      result, third := LastChance(sockindex, result, a, m, n);
      SuffixGrows(two, walks, m);
      TurnsMean(addrs, sockindex, poll, a, t, third, Now(), result);
    }

    /** Curl_is_connected. */
    method IsConnected(sockindex: nat, poll: Poll) returns (result: Code, connected: bool)
      requires Valid() && sockindex < 2 && Racing(sockindex)
      modifies this`tempaddr, this`tempsock, this`sock, this`tcpconnect, this`open, this`tries, this`walks
      ensures Valid() && Racing(sockindex)
      ensures Forward(old(tempaddr), tempaddr) && old(tries) <= tries && old(walks) <= walks
      ensures InLanes(addrs, old(tempaddr), tempaddr, tries[|old(tries)|..])
      ensures sock[1 - sockindex] == old(sock[1 - sockindex])
      ensures connected == tcpconnect[sockindex] && tcpconnect[1 - sockindex] == old(tcpconnect[1 - sockindex])
      ensures old(tcpconnect[sockindex]) ==> unchanged(this) && result == OK
      ensures !old(tcpconnect[sockindex]) && poll.expired ==> unchanged(this) && result == OperationTimedOut
      // a win, even one spoilt by the proxy, leaves one socket and nothing pending
      ensures sock[sockindex] != old(sock[sockindex]) ==>
                && sock[sockindex].Some? && tempsock == [None, None]
                && open == Fds(sock[0]) + Fds(sock[1])
      ensures connected && !old(tcpconnect[sockindex]) ==> result == OK && sock[sockindex] != old(sock[sockindex])
      // the first lane whose socket is connected wins
      ensures !old(tcpconnect[sockindex]) && !poll.expired && old(tempsock)[0].Some? && Wins(poll.lane0) ==>
                sock[sockindex] == old(tempsock)[0] && result == poll.proxy && (connected <==> poll.proxy == OK)
      ensures !old(tcpconnect[sockindex]) && !poll.expired && !(old(tempsock)[0].Some? && Wins(poll.lane0))
              && old(tempsock)[1].Some? && Wins(poll.lane1) ==>
                sock[sockindex] == old(tempsock)[1] && result == poll.proxy && (connected <==> poll.proxy == OK)
      ensures !Wins(poll.lane0) && !Wins(poll.lane1) ==> sock == old(sock)
      // without a winner, every lane gets what its answer calls for
      ensures !old(tcpconnect[sockindex]) && !poll.expired && sock == old(sock) ==>
                && Lead(addrs, sockindex, old(Now()), walks[|old(walks)|..], Now())
                && LanesAnswered(old(Now()), poll, walks[|old(walks)|..], Now())
                && Verdict(old(Now()), poll, walks[|old(walks)|..], Now(), result)
    {
      result, connected := OK, false;
      if tcpconnect[sockindex] {
        return OK, true;
      }
      if poll.expired {
        return OperationTimedOut, false;
      }
      var won;
      won, result := PollAll(sockindex, poll);
      if won {
        result := poll.proxy;
        if result != OK {
          return result, false;
        }
        tcpconnect := tcpconnect[sockindex := true];
        return OK, true;
      }
    }
  }

  /** One race, polled until it is decided or the caller gives up. */
  method Race(c: Connection, host: seq<Family>, sockindex: nat, expired: bool, polls: seq<Poll>)
    returns (connected: bool)
    requires host != [] && sockindex < 2
    requires c.Valid() && c.tempsock == [None, None] && c.sock[sockindex].None? && !c.tcpconnect[sockindex]
    modifies c
    ensures c.Valid() && c.sock[1 - sockindex] == old(c.sock[1 - sockindex])
    ensures c.tcpconnect[1 - sockindex] == old(c.tcpconnect[1 - sockindex])
    ensures connected ==> c.tempsock == [None, None] && c.sock[sockindex].Some?
  {
    connected := false;
    var result := c.ConnectHost(host, expired);
    for k := 0 to |polls|
      invariant c.Valid() && c.Racing(sockindex) && c.sock[1 - sockindex] == old(c.sock[1 - sockindex])
      invariant c.tcpconnect[1 - sockindex] == old(c.tcpconnect[1 - sockindex])
      invariant connected ==> c.tcpconnect[sockindex]
    {
      if result == OK && !connected {
        result, connected := c.IsConnected(sockindex, polls[k]);
      }
    }
  }

  /** Any number of polls with both lanes under way: no address is tried by both lanes. */
  method BothLanes(c: Connection, sockindex: nat, polls: seq<Poll>)
    requires sockindex < 2 && c.Valid() && c.Racing(sockindex) && BothSet(c.tempaddr)
    modifies c
    ensures c.Valid() && c.addrs == old(c.addrs) && old(c.tries) <= c.tries
    ensures InLanes(c.addrs, old(c.tempaddr), c.tempaddr, c.tries[|old(c.tries)|..])
    ensures var made := c.tries[|old(c.tries)|..];
            forall t, u | t in made && u in made && t.lane != u.lane :: t.addr != u.addr
  {
    ghost var from, n := c.tempaddr, |c.tries|;
    for k := 0 to |polls|
      invariant c.Valid() && c.Racing(sockindex) && c.addrs == old(c.addrs) && old(c.tries) <= c.tries
      invariant InLanes(c.addrs, from, c.tempaddr, c.tries[n..])
    {
      ghost var before, tries := c.tempaddr, c.tries;
      var _, _ := c.IsConnected(sockindex, polls[k]);
      InLanesOn(c.addrs, from, before, c.tempaddr, tries[n..], c.tries[|tries|..]);
      assert c.tries[n..] == tries[n..] + c.tries[|tries|..];
    }
    LanesNeverMeet(c.addrs, from, c.tempaddr, c.tries[n..]);
  }

  /**
   A connection from its first race to its end, with a second race for a data connection if the
   first is won, and every answer of the kernel.  No socket is leaked, and none is closed twice
   (`CloseSocket` demands as much).
   */
  method WholeLife(host: seq<Family>, dataHost: seq<Family>, expired: bool, polls: seq<Poll>, dataPolls: seq<Poll>)
    returns (c: Connection)
    requires host != [] && dataHost != []
    ensures c.open == {}
  {
    c := new Connection();
    var connected := Race(c, host, 0, expired, polls);
    if connected {
      var late: bool := *;
      connected := Race(c, dataHost, 1, late, dataPolls);
    }
    c.CloseAll();
  }
}
