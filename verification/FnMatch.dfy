/**
 The backtracking glob matcher of curl_fnmatch.c, for patterns without '['.

 A pattern is a sequence of tokens; a string matches when it can be cut into one piece for each
 token.  The loop with its recursion on '*' decides exactly that relation.
 */
module FnMatch {
  import opened Basics

  datatype Result = Match | NoMatch | Fail

  /** isprint in the C locale. */
  predicate IsPrint(c: char) {
    ' ' <= c <= '~'
  }

  // ---------------------------------------------------------------- the relation

  datatype Token = Star | AnyPrintable | Literal(c: char)

  /** None when a backslash is not followed by a printable character. */
  function Tokens(p: string): Option<seq<Token>> {
    if p == "" then Some([])
    else if p[0] == '\\' then
      if |p| < 2 || !IsPrint(p[1]) then None
      else
        match Tokens(p[2..])
        case None => None
        case Some(ts) => Some([Literal(p[1])] + ts)
    else
      match Tokens(p[1..])
      case None => None
      case Some(ts) => Some([if p[0] == '*' then Star else if p[0] == '?' then AnyPrintable else Literal(p[0])] + ts)
  }

  predicate Fits(t: Token, piece: string) {
    match t
    case Star => true
    case AnyPrintable => |piece| == 1 && IsPrint(piece[0])
    case Literal(c) => piece == [c]
  }

  function Flatten(pieces: seq<string>): string {
    if pieces == [] then "" else pieces[0] + Flatten(pieces[1..])
  }

  /** The string is cut into one fitting piece for each token. */
  ghost predicate Cut(ts: seq<Token>, pieces: seq<string>, s: string) {
    |pieces| == |ts| && Flatten(pieces) == s && forall i | 0 <= i < |ts| :: Fits(ts[i], pieces[i])
  }

  ghost predicate Matches(p: string, s: string) {
    Tokens(p).Some? && exists pieces :: Cut(Tokens(p).value, pieces, s)
  }

  // ---------------------------------------------------------------- the matcher

  /** What `loop` answers. */
  function Outcome(p: string, s: string): Result
    requires '[' !in p
    decreases |p| + |s|
  {
    if p == "" then
      if s == "" then Match else NoMatch
    else if p[0] == '*' then
      if |p| > 1 && p[1] == '*' then Outcome(p[1..], s)
      else if s == "" && |p| == 1 then Match
      else if Outcome(p[1..], s) == Match then Match
      else if s != "" then Outcome(p, s[1..])
      else NoMatch
    else if p[0] == '?' then
      if s == "" then NoMatch else if IsPrint(s[0]) then Outcome(p[1..], s[1..]) else Fail
    else if p[0] == '\\' then
      if |p| < 2 || !IsPrint(p[1]) then Fail
      else if s == "" || p[1] != s[0] then NoMatch
      else Outcome(p[2..], s[1..])
    else if s == "" || p[0] != s[0] then NoMatch
    else Outcome(p[1..], s[1..])
  }

  /** A C string read at index `i`, up to its terminator. */
  function At(s: string, i: nat): char
    requires i <= |s|
  {
    if i < |s| then s[i] else NUL
  }

  datatype LoopState = LoopDefault | LoopBackslash

  /** What is left to decide at `p` and `s`; after a backslash, `p` is one further. */
  ghost function Left(pattern: string, text: string, state: LoopState, p: nat, s: nat): Result
    requires '[' !in pattern && p <= |pattern| && s <= |text| && (state == LoopBackslash ==> p > 0)
  {
    NoBracket(pattern, if state == LoopDefault then p else p - 1);
    Outcome(pattern[if state == LoopDefault then p else p - 1..], text[s..])
  }

  lemma NoBracket(pattern: string, p: nat)
    requires '[' !in pattern && p <= |pattern|
    ensures '[' !in pattern[p..]
  {
  }

  /** loop: the inner loop over consecutive stars. */
  method SkipStars(pattern: string, text: string, p0: nat, s: nat) returns (p: nat)
    requires NUL !in pattern && '[' !in pattern && p0 < |pattern| && pattern[p0] == '*' && s <= |text|
    ensures p0 <= p < |pattern| && pattern[p] == '*' && At(pattern, p + 1) != '*'
    ensures Left(pattern, text, LoopDefault, p, s) == Left(pattern, text, LoopDefault, p0, s)
  {
    p := p0;
    while At(pattern, p + 1) == '*'
      invariant p0 <= p < |pattern| && pattern[p] == '*'
      invariant Left(pattern, text, LoopDefault, p, s) == Left(pattern, text, LoopDefault, p0, s)
      decreases |pattern| - p
    {
      assert pattern[p..][1..] == pattern[p + 1..];
      p := p + 1;
    }
  }

  /** What one round of the loop decides. */
  datatype Round = Answer(rc: Result) | GoOn(state: LoopState, p: nat, s: nat)

  /** The round is right about what is left. */
  ghost predicate Agrees(pattern: string, text: string, state: LoopState, p: nat, s: nat, r: Round)
    requires '[' !in pattern && p <= |pattern| && s <= |text| && (state == LoopBackslash ==> p > 0)
  {
    match r
    case Answer(rc) => rc == Left(pattern, text, state, p, s)
    case GoOn(state', p', s') =>
      && p' <= |pattern| && s' <= |text| && (state' == LoopBackslash ==> p' > 0 && pattern[p' - 1] == '\\')
      && Left(pattern, text, state', p', s') == Left(pattern, text, state, p, s)
      && 2 * (|pattern| - p') + |text| - s' < 2 * (|pattern| - p) + |text| - s
  }

  /** loop: CURLFNM_LOOP_DEFAULT at anything but a star. */
  method RoundDefault(pattern: string, text: string, p: nat, s: nat) returns (r: Round)
    requires NUL !in pattern && NUL !in text && '[' !in pattern && p <= |pattern| && s <= |text|
    requires At(pattern, p) != '*'
    ensures Agrees(pattern, text, LoopDefault, p, s, r)
  {
    assert p < |pattern| ==> pattern[p] in pattern && pattern[p..][1..] == pattern[p + 1..];
    assert s < |text| ==> text[s] in text && text[s..][1..] == text[s + 1..];
    if At(pattern, p) == '?' {
      if IsPrint(At(text, s)) {
        r := GoOn(LoopDefault, p + 1, s + 1);
      } else if At(text, s) == NUL {
        r := Answer(NoMatch);
      } else {
        r := Answer(Fail);
      }
    } else if At(pattern, p) == NUL {
      r := Answer(if At(text, s) == NUL then Match else NoMatch);
    } else if At(pattern, p) == '\\' {
      r := GoOn(LoopBackslash, p + 1, s);
    } else if At(pattern, p) != At(text, s) {
      r := Answer(NoMatch);
    } else {
      r := GoOn(LoopDefault, p + 1, s + 1);
    }
  }

  /** loop: CURLFNM_LOOP_BACKSLASH. */
  method RoundBackslash(pattern: string, text: string, p: nat, s: nat) returns (r: Round)
    requires NUL !in pattern && NUL !in text && '[' !in pattern && 0 < p <= |pattern| && s <= |text|
    requires pattern[p - 1] == '\\'
    ensures Agrees(pattern, text, LoopBackslash, p, s, r)
  {
    assert p < |pattern| ==> pattern[p] in pattern && pattern[p - 1..][2..] == pattern[p + 1..];
    assert s < |text| ==> text[s] in text && text[s..][1..] == text[s + 1..];
    if !IsPrint(At(pattern, p)) {
      r := Answer(Fail);
    } else if At(pattern, p) == At(text, s) {
      r := GoOn(LoopDefault, p + 1, s + 1);
    } else {
      r := Answer(NoMatch);
    }
  }

  /** A star that `rest`, the answer without it, does not settle. */
  lemma StarStep(pattern: string, text: string, p: nat, s: nat, rest: Result)
    requires '[' !in pattern && NUL !in pattern && NUL !in text && p < |pattern| && s <= |text| && pattern[p] == '*'
    requires At(pattern, p + 1) != '*' && rest == Left(pattern, text, LoopDefault, p + 1, s)
    ensures At(text, s) == NUL && At(pattern, p + 1) == NUL ==> Left(pattern, text, LoopDefault, p, s) == Match
    ensures rest == Match ==> Left(pattern, text, LoopDefault, p, s) == Match
    ensures rest != Match && At(text, s) == NUL && At(pattern, p + 1) != NUL ==>
              Left(pattern, text, LoopDefault, p, s) == NoMatch
    ensures rest != Match && s < |text| ==>
              Left(pattern, text, LoopDefault, p, s) == Left(pattern, text, LoopDefault, p, s + 1)
  {
    assert pattern[p..][1..] == pattern[p + 1..];
    if s < |text| {
      assert text[s] in text && text[s..][1..] == text[s + 1..];
    }
  }

  /** loop: CURLFNM_LOOP_DEFAULT at a star, the one place with a recursive call. */
  method RoundStar(pattern: string, text: string, p0: nat, s: nat) returns (r: Round)
    requires NUL !in pattern && NUL !in text && '[' !in pattern
    requires p0 < |pattern| && pattern[p0] == '*' && s <= |text|
    ensures Agrees(pattern, text, LoopDefault, p0, s, r)
    decreases |pattern| - p0 + |text| - s, 0
  {
    var p := SkipStars(pattern, text, p0, s);
    ghost var left := Left(pattern, text, LoopDefault, p + 1, s);
    StarStep(pattern, text, p, s, left);
    if s == |text| && p + 1 == |pattern| {
      return Answer(Match);
    }
    var rc := Loop(pattern[p + 1..], text[s..]);
    if rc == Match {
      r := Answer(Match);
    } else if s < |text| {
      r := GoOn(LoopDefault, p, s + 1);
    } else {
      r := Answer(NoMatch);
    }
  }

  /** loop. */
  method Loop(pattern: string, text: string) returns (rc: Result)
    requires NUL !in pattern && NUL !in text && '[' !in pattern
    ensures rc == Outcome(pattern, text)
    decreases |pattern| + |text|, 1
  {
    var state := LoopDefault;
    var p: nat, s: nat := 0, 0;
    assert pattern[0..] == pattern && text[0..] == text;
    while true
      invariant p <= |pattern| && s <= |text| && (state == LoopBackslash ==> p > 0 && pattern[p - 1] == '\\')
      invariant Left(pattern, text, state, p, s) == Outcome(pattern, text)
      decreases 2 * (|pattern| - p) + |text| - s
    {
      var r;
      if state == LoopBackslash {
        r := RoundBackslash(pattern, text, p, s);
      } else if At(pattern, p) == '*' {
        r := RoundStar(pattern, text, p, s);
      } else {
        r := RoundDefault(pattern, text, p, s);
      }
      match r {
        case Answer(answer) =>
          return answer;
        case GoOn(state', p', s') =>
          state, p, s := state', p', s';
      }
    }
  }

  /** Curl_fnmatch; a missing argument is a failure. */
  method FnMatch(pattern: Option<string>, text: Option<string>) returns (rc: Result)
    requires pattern.Some? ==> NUL !in pattern.value && '[' !in pattern.value
    requires text.Some? ==> NUL !in text.value
    ensures pattern.None? || text.None? ==> rc == Fail
    ensures pattern.Some? && text.Some? ==>
              && (rc == Match <==> Matches(pattern.value, text.value))
              && (rc == Fail <==> exists i: nat, j: nat :: StuckAt(pattern.value, text.value, i, j))
  {
    if pattern.None? || text.None? {
      return Fail;
    }
    rc := Loop(pattern.value, text.value);
    OutcomeIsMatches(pattern.value, text.value);
    FailHasACause(pattern.value, text.value);
  }

  // ---------------------------------------------------------------- the matcher decides the relation

  /** A match yields the pieces. */
  lemma {:induction false} MatchCuts(p: string, s: string) returns (pieces: seq<string>)
    requires '[' !in p && Outcome(p, s) == Match
    ensures Tokens(p).Some? && Cut(Tokens(p).value, pieces, s)
    decreases |p| + |s|
  {
    if p == "" {
      pieces := [];
    } else if p[0] == '*' {
      if (|p| == 1 || p[1] != '*') && s != "" && Outcome(p[1..], s) != Match {
        // the star eats one character
        var rest := MatchCuts(p, s[1..]);
        pieces := [[s[0]] + rest[0]] + rest[1..];
        assert Flatten(pieces) == [s[0]] + Flatten(rest);
      } else if |p| == 1 && s == "" {
        pieces := [""];
        assert Tokens(p[1..]) == Some([]) && pieces[1..] == [];
      } else {
        var rest := MatchCuts(p[1..], s);
        pieces := [""] + rest;
      }
    } else if p[0] == '\\' {
      var rest := MatchCuts(p[2..], s[1..]);
      pieces := [[s[0]]] + rest;
    } else {
      var rest := MatchCuts(p[1..], s[1..]);
      pieces := [[s[0]]] + rest;
    }
  }

  /** Pieces yield a match. */
  lemma {:induction false} CutMatches(p: string, s: string, pieces: seq<string>)
    requires '[' !in p && Tokens(p).Some? && Cut(Tokens(p).value, pieces, s)
    ensures Outcome(p, s) == Match
    decreases |p| + |s|
  {
    if p == "" {
    } else if p[0] == '*' {
      var rest := pieces[1..];
      if pieces[0] == "" {
        CutMatches(p[1..], s, rest);
      } else if |p| > 1 && p[1] == '*' {
        // two stars do the work of one
        var merged := [pieces[0] + rest[0]] + rest[1..];
        assert Flatten(merged) == s;
        CutMatches(p[1..], s, merged);
      } else {
        var shorter := [pieces[0][1..]] + rest;
        assert Flatten(shorter) == s[1..];
        CutMatches(p, s[1..], shorter);
      }
    } else {
      var n := if p[0] == '\\' then 2 else 1;
      assert s[0] == pieces[0][0] && s[1..] == Flatten(pieces[1..]);
      CutMatches(p[n..], s[1..], pieces[1..]);
    }
  }

  /** MATCH exactly when the relation holds. */
  lemma OutcomeIsMatches(p: string, s: string)
    requires '[' !in p
    ensures Outcome(p, s) == Match <==> Matches(p, s)
  {
    if Outcome(p, s) == Match {
      var pieces := MatchCuts(p, s);
    }
    if Matches(p, s) {
      var pieces :| Cut(Tokens(p).value, pieces, s);
      CutMatches(p, s, pieces);
    }
  }

  // ---------------------------------------------------------------- when the matcher fails

  /** A '?' faces a character that is not printable, or the escape that is due is malformed. */
  predicate Stuck(p: string, s: string) {
    || (p != "" && p[0] == '?' && s != "" && !IsPrint(s[0]))
    || (p != "" && p[0] == '\\' && (|p| < 2 || !IsPrint(p[1])))
  }

  /** Up to `i` the pattern has no star and matches the string up to `j`; there it gets stuck. */
  ghost predicate StuckAt(p: string, s: string, i: nat, j: nat) {
    && i <= |p| && j <= |s| && Matches(p[..i], s[..j]) && Star !in Tokens(p[..i]).value
    && Stuck(p[i..], s[j..])
  }

  /** A star never fails: it matches or runs out of characters. */
  lemma {:induction false} StarNeverFails(p: string, s: string)
    requires '[' !in p && p != "" && p[0] == '*'
    ensures Outcome(p, s) != Fail
    decreases |p| + |s|
  {
    if |p| > 1 && p[1] == '*' {
      StarNeverFails(p[1..], s);
    } else if s != "" {
      StarNeverFails(p, s[1..]);
    }
  }

  /** A first token without a star takes one character off both. */
  predicate Takes(p: string, s: string, n: nat)
    requires 0 < n <= |p| && s != ""
  {
    && p[0] != '*'
    && (if p[0] == '\\' then n == 2 && IsPrint(p[1]) && p[1] == s[0]
        else if p[0] == '?' then n == 1 && IsPrint(s[0])
        else n == 1 && p[0] == s[0])
  }

  lemma TakeOne(p: string, s: string, n: nat)
    requires '[' !in p && 0 < n <= |p| && s != "" && Takes(p, s, n)
    ensures Outcome(p, s) == Outcome(p[n..], s[1..])
    ensures Tokens(p).Some? <==> Tokens(p[n..]).Some?
    ensures Tokens(p).Some? ==> (Star in Tokens(p).value <==> Star in Tokens(p[n..]).value)
  {
  }

  /** The front of a pattern is stepped through like the pattern. */
  lemma FrontStep(p: string, s: string, n: nat, i: nat, j: nat)
    requires '[' !in p && 0 < n <= i <= |p| && 0 < j <= |s| && Takes(p, s, n)
    ensures StuckAt(p, s, i, j) <==> StuckAt(p[n..], s[1..], i - n, j - 1)
  {
    var a, b := p[..i], s[..j];
    assert a[n..] == p[n..][..i - n] && b[1..] == s[1..][..j - 1];
    assert p[n..][i - n..] == p[i..] && s[1..][j - 1..] == s[j..];
    assert '[' !in a && '[' !in p[n..][..i - n];
    TakeOne(a, b, n);
    OutcomeIsMatches(a, b);
    OutcomeIsMatches(a[n..], b[1..]);
  }

  /** Nothing matched yet. */
  lemma StuckAtOnce(p: string, s: string)
    requires Stuck(p, s)
    ensures StuckAt(p, s, 0, 0)
  {
    assert p[..0] == "" && s[..0] == "" && p[0..] == p && s[0..] == s;
    assert Cut([], [], "");
  }

  lemma {:induction false} FailIsStuck(p: string, s: string) returns (i: nat, j: nat)
    requires '[' !in p && Outcome(p, s) == Fail
    ensures StuckAt(p, s, i, j)
    decreases |p|
  {
    if p[0] == '*' {
      StarNeverFails(p, s);
    }
    if Stuck(p, s) {
      StuckAtOnce(p, s);
      i, j := 0, 0;
    } else {
      var n := if p[0] == '\\' then 2 else 1;
      TakeOne(p, s, n);
      i, j := FailIsStuck(p[n..], s[1..]);
      i, j := i + n, j + 1;
      FrontStep(p, s, n, i, j);
    }
  }

  /** A front that matches takes its first token off both. */
  lemma FrontTakes(p: string, s: string, i: nat, j: nat)
    requires '[' !in p && StuckAt(p, s, i, j) && i > 0
    ensures var n := if p[0] == '\\' then 2 else 1;
            n <= i && 0 < j && Takes(p, s, n)
  {
    var a, b := p[..i], s[..j];
    assert '[' !in a;
    OutcomeIsMatches(a, b);
    assert a[0] == p[0] && (i > 1 ==> a[1] == p[1]) && (j > 0 ==> b[0] == s[0]);
  }

  lemma {:induction false} StuckFails(p: string, s: string, i: nat, j: nat)
    requires '[' !in p && StuckAt(p, s, i, j)
    ensures Outcome(p, s) == Fail
    decreases |p|
  {
    if i == 0 {
      assert p[..0] == "" && p[0..] == p;
      OutcomeIsMatches("", s[..j]);
      assert j == 0 && s[0..] == s;
    } else {
      FrontTakes(p, s, i, j);
      var n := if p[0] == '\\' then 2 else 1;
      FrontStep(p, s, n, i, j);
      TakeOne(p, s, n);
      StuckFails(p[n..], s[1..], i - n, j - 1);
    }
  }

  /**
   FAIL exactly when, before the first star, a front of the pattern matches a front of the string and the
   next token is a malformed escape, or a '?' that meets a character which is not printable.
   */
  lemma FailHasACause(p: string, s: string)
    requires '[' !in p
    ensures Outcome(p, s) == Fail <==> exists i: nat, j: nat :: StuckAt(p, s, i, j)
  {
    if Outcome(p, s) == Fail {
      var i, j := FailIsStuck(p, s);
    }
    if i: nat, j: nat :| StuckAt(p, s, i, j) {
      StuckFails(p, s, i, j);
    }
  }
}
