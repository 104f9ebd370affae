/**
 Dot-segment removal, section 5.2.4 of RFC 3986 (dotdot.c).

 `Remove` is the rule set of the RFC, on an input and an output buffer.  The method works in
 place on two arrays of the size the source allocates and refines `Remove`; `Remove` in turn is
 a fold of the path's segments over a stack.
 */
module DotDot {
  import opened Basics

  // ---------------------------------------------------------------- the rules of the RFC

  predicate Starts(p: string, lit: string) {
    |lit| <= |p| && p[..|lit|] == lit
  }

  /** The next '/' at or after `i`, or the end. */
  function NextSlash(p: string, i: nat): (j: nat)
    requires i <= |p|
    ensures i <= j <= |p|
    ensures forall k | i <= k < j :: p[k] != '/'
    ensures j < |p| ==> p[j] == '/'
    decreases |p| - i
  {
    if i == |p| || p[i] == '/' then i else NextSlash(p, i + 1)
  }

  /** The text before its last '/', or nothing if it has none. */
  function DropLast(o: string): (r: string)
    ensures |r| <= |o| && r == o[..|r|]
  {
    if o == "" then "" else if o[|o| - 1] == '/' then o[..|o| - 1] else DropLast(o[..|o| - 1])
  }

  /** Which of the rules A to E applies to the input buffer. */
  datatype Rule = Skip(n: nat) | EndsInDot | Up | EndsInUp | Vanish | Move

  function RuleFor(p: string): (r: Rule)
    ensures r.Skip? ==> 0 < r.n <= |p|
  {
    if Starts(p, "./") then Skip(2)
    else if Starts(p, "../") then Skip(3)
    else if Starts(p, "/./") then Skip(2)
    else if p == "/." then EndsInDot
    else if Starts(p, "/../") then Up
    else if p == "/.." then EndsInUp
    else if p == "." || p == ".." then Vanish
    else Move
  }

  /** The rules, applied to the rest `p` of the input buffer and the output buffer `o`. */
  function Remove(o: string, p: string): string
    decreases |p|
  {
    if p == "" then o
    else
      match RuleFor(p)
      case Skip(n) => Remove(o, p[n..])
      case EndsInDot => Remove(o, "/")
      case Up => Remove(DropLast(o), p[3..])
      case EndsInUp => Remove(DropLast(o), "/")
      case Vanish => o
      case Move => var k := NextSlash(p, 1); Remove(o + p[..k], p[k..])
  }

  function NextQuery(s: string, i: nat): (j: nat)
    requires i <= |s|
    ensures i <= j <= |s|
    ensures forall k | i <= k < j :: s[k] != '?'
    ensures j < |s| ==> s[j] == '?'
    decreases |s| - i
  {
    if i == |s| || s[i] == '?' then i else NextQuery(s, i + 1)
  }

  /** What precedes the first '?', and the rest. */
  function PathOf(s: string): string { s[..NextQuery(s, 0)] }
  function QueryOf(s: string): string { s[NextQuery(s, 0)..] }

  /** The whole function: dot segments are removed from the path, the query is kept. */
  function Dedot(s: string): string {
    Remove("", PathOf(s)) + QueryOf(s)
  }

  // ---------------------------------------------------------------- the method

  /** `strncmp(lit, a + c, n) == 0`; with a trailing NUL in `lit`, `strcmp(...) == 0`. */
  predicate At(a: array<char>, c: nat, lit: string)
    reads a
  {
    c + |lit| <= a.Length && a[c..c + |lit|] == lit
  }

  /** The C string at `c`, which ends at `e`. */
  ghost predicate Text(a: array<char>, c: nat, e: nat, s: string)
    reads a
  {
    c <= e < a.Length && a[c..e] == s && a[e] == NUL && NUL !in s
  }

  lemma TextStarts(a: array<char>, c: nat, e: nat, s: string, lit: string)
    requires Text(a, c, e, s) && NUL !in lit
    ensures At(a, c, lit) == Starts(s, lit)
    ensures At(a, c, lit + [NUL]) == (s == lit)
  {
    var z := a[c..];
    assert z[..|s|] == s && z[|s|] == NUL;
    assert At(a, c, lit) == Starts(z, lit);
    assert At(a, c, lit + [NUL]) == Starts(z, lit + [NUL]);
    StartsBeforeNul(z, s, lit);
  }

  lemma StartsBeforeNul(z: string, s: string, lit: string)
    requires |s| < |z| && z[..|s|] == s && z[|s|] == NUL && NUL !in s && NUL !in lit
    ensures Starts(z, lit) == Starts(s, lit)
    ensures Starts(z, lit + [NUL]) == (s == lit)
  {
    assert Starts(z, lit) ==> forall i | 0 <= i < |lit| :: z[i] == lit[i];
    assert Starts(z, lit + [NUL]) ==> z[|lit|] == (lit + [NUL])[|lit|];
    assert s == lit ==> z[..|s| + 1] == lit + [NUL];
  }

  /** The backward loop of rule C. */
  method RemoveLast(outb: array<char>, optr: nat) returns (optr': nat)
    requires optr < outb.Length
    modifies outb
    ensures optr' <= optr && outb[..optr'] == DropLast(old(outb[..optr])) && outb[optr'] == NUL
  {
    optr' := optr;
    while optr' > 0
      invariant optr' <= optr && outb[..] == old(outb[..])
      invariant DropLast(outb[..optr']) == DropLast(outb[..optr])
    {
      optr' := optr' - 1;
      assert outb[..optr' + 1][..optr'] == outb[..optr'];
      if outb[optr'] == '/' {
        break;
      }
    }
    ghost var kept := outb[..optr'];
    outb[optr'] := NUL;
    assert outb[..optr'] == kept;
  }

  /** The copy loop of rule E: one character, then up to the next '/' or the end. */
  method MoveSegment(clone: array<char>, cptr: nat, outb: array<char>, optr: nat, ghost e: nat, ghost p: string)
    returns (cptr': nat, optr': nat)
    requires clone != outb && Text(clone, cptr, e, p) && p != "" && optr + |p| < outb.Length
    modifies outb
    ensures var k := NextSlash(p, 1);
            cptr' == cptr + k && optr' == optr + k && outb[..optr'] == old(outb[..optr]) + p[..k]
            && outb[optr'] == NUL
  {
    ghost var i := 1;
    outb[optr] := clone[cptr];
    cptr', optr' := cptr + 1, optr + 1;
    while clone[cptr'] != NUL && clone[cptr'] != '/'
      invariant 1 <= i <= |p| && cptr' == cptr + i && optr' == optr + i
      invariant NextSlash(p, i) == NextSlash(p, 1)
      invariant outb[..optr'] == old(outb[..optr]) + p[..i]
      decreases |p| - i
    {
      assert i < |p| && p[i] == clone[cptr'];
      outb[optr'] := clone[cptr'];
      cptr', optr', i := cptr' + 1, optr' + 1, i + 1;
    }
    assert i < |p| ==> p[i] == clone[cptr'] && p[i] in p;
    ghost var moved := outb[..optr'];
    outb[optr'] := NUL;
    assert outb[..optr'] == moved;
  }

  /** The tests of the loop, in the source's order. */
  method Classify(clone: array<char>, cptr: nat, ghost e: nat, ghost p: string) returns (rule: Rule)
    requires Text(clone, cptr, e, p)
    ensures rule == RuleFor(p)
  {
    TextStarts(clone, cptr, e, p, "./");
    TextStarts(clone, cptr, e, p, "../");
    TextStarts(clone, cptr, e, p, "/./");
    TextStarts(clone, cptr, e, p, "/.");
    TextStarts(clone, cptr, e, p, "/../");
    TextStarts(clone, cptr, e, p, "/..");
    TextStarts(clone, cptr, e, p, ".");
    TextStarts(clone, cptr, e, p, "..");
    if At(clone, cptr, "./") {
      rule := Skip(2);
    } else if At(clone, cptr, "../") {
      rule := Skip(3);
    } else if At(clone, cptr, "/./") {
      rule := Skip(2);
    } else if At(clone, cptr, "/." + [NUL]) {
      rule := EndsInDot;
    } else if At(clone, cptr, "/../") {
      rule := Up;
    } else if At(clone, cptr, "/.." + [NUL]) {
      rule := EndsInUp;
    } else if At(clone, cptr, "." + [NUL]) || At(clone, cptr, ".." + [NUL]) {
      rule := Vanish;
    } else {
      rule := Move;
    }
  }

  /** One round of the loop. */
  method ApplyRule(clone: array<char>, cptr: nat, outb: array<char>, optr: nat, ghost e: nat, ghost p: string)
    returns (cptr': nat, optr': nat, ghost e': nat, ghost p': string)
    requires clone != outb && Text(clone, cptr, e, p) && p != "" && optr + |p| < outb.Length
    requires optr > 0 ==> outb[optr] == NUL
    modifies clone, outb
    ensures Text(clone, cptr', e', p') && |p'| < |p| && e' <= e
    ensures optr' + |p'| <= optr + |p| && (optr' > 0 ==> outb[optr'] == NUL)
    ensures Remove(outb[..optr'], p') == Remove(old(outb[..optr]), p)
  {
    var rule := Classify(clone, cptr, e, p);
    cptr', optr', e', p' := cptr, optr, e, p;
    match rule {
      case Skip(n) =>
        cptr', p' := cptr + n, p[n..];
      case EndsInDot =>
        clone[cptr + 1] := '/';
        cptr', p' := cptr + 1, "/";
      case Up =>
        cptr', p' := cptr + 3, p[3..];
        optr' := RemoveLast(outb, optr);
      case EndsInUp =>
        clone[cptr + 2] := '/';
        cptr', p' := cptr + 2, "/";
        optr' := RemoveLast(outb, optr);
      case Vanish =>
        clone[cptr] := NUL;
        e', p' := cptr, "";
      case Move =>
        p' := p[NextSlash(p, 1)..];
        cptr', optr' := MoveSegment(clone, cptr, outb, optr, e, p);
    }
  }

  /** The state of the loop: what is left in the input buffer leads to `goal`, and fits. */
  ghost predicate Under(clone: array<char>, cptr: nat, outb: array<char>, optr: nat, e: nat, p: string, goal: string)
    reads clone, outb
  {
    && Text(clone, cptr, e, p) && optr + |p| < outb.Length && (optr > 0 ==> outb[optr] == NUL)
    && Remove(outb[..optr], p) == goal
  }

  /** One round of the loop, and whether it was the last. */
  method NextRound(clone: array<char>, cptr: nat, outb: array<char>, optr: nat, ghost e: nat, ghost p: string,
                   ghost goal: string)
    returns (cptr': nat, optr': nat, more: bool, ghost e': nat, ghost p': string)
    requires clone != outb && Under(clone, cptr, outb, optr, e, p, goal) && p != ""
    modifies clone, outb
    ensures Under(clone, cptr', outb, optr', e', p', goal)
    ensures |p'| < |p| && optr' + |p'| <= optr + |p| && more == (p' != "")
  {
    cptr', optr', e', p' := ApplyRule(clone, cptr, outb, optr, e, p);
    more := clone[cptr'] != NUL;
    assert p' != "" ==> clone[cptr'] == p'[0] && p'[0] in p';
  }

  lemma NothingLeft(o: string)
    ensures Remove(o, "") == o
  {
  }

  /** The loop of Curl_dedotdotify, on the clone of the path. */
  method RemoveDots(clone: array<char>, outb: array<char>, ghost queryp: nat, ghost path: string) returns (optr: nat)
    requires clone != outb && Text(clone, 0, queryp, path) && path != "" && queryp < outb.Length
    modifies clone, outb
    ensures optr <= queryp && (optr > 0 ==> outb[optr] == NUL)
    ensures outb[..optr] == Remove("", path)
  {
    var cptr: nat := 0;
    optr := 0;
    ghost var e: nat, p := queryp, path;
    assert outb[..0] == "";
    var more := true;
    while more
      invariant Under(clone, cptr, outb, optr, e, p, Remove("", path)) && optr + |p| <= queryp && more == (p != "")
      decreases |p|
    {
      cptr, optr, more, e, p := NextRound(clone, cptr, outb, optr, e, p, Remove("", path));
    }
    NothingLeft(outb[..optr]);
  }

  /**
   The path is dropped altogether.  It is "", "." or "..", or such a path behind "./" or "../".
   */
  predicate Vanishes(p: string)
    decreases |p|
  {
    p in {"", ".", ".."} || (Starts(p, "./") && Vanishes(p[2..])) || (Starts(p, "../") && Vanishes(p[3..]))
  }

  /**
   Curl_dedotdotify; the path part must not be empty.  The output is terminated unless nothing was
   ever written to it: the path vanishes, and there is no query.
   */
  method Dedotdotify(input: string) returns (outb: array<char>, ghost len: nat)
    requires NUL !in input && PathOf(input) != ""
    ensures outb.Length == |input| + 1 && len <= |input|
    ensures outb[..len] == Dedot(input)
    ensures !(Vanishes(PathOf(input)) && QueryOf(input) == "") ==> outb[len] == NUL
  {
    var inlen := |input|;
    outb := new char[inlen + 1];
    var clone := new char[inlen + 1](i requires 0 <= i <= inlen => if i < inlen then input[i] else NUL);
    var queryp := FindQuery(input);
    ghost var path := input[..queryp];
    clone[queryp] := NUL;
    assert clone[..queryp] == path;
    var optr := RemoveDots(clone, outb, queryp, path);
    VanishesExactly(path);
    len := optr;
    if queryp < inlen {
      len := AppendQuery(outb, optr, input, queryp);
    } else {
      assert outb[..optr] + input[queryp..] == outb[..optr];
    }
  }

  /** memcpy of the query and its terminator. */
  method AppendQuery(outb: array<char>, optr: nat, input: string, queryp: nat) returns (end: nat)
    requires optr <= queryp < |input| && outb.Length == |input| + 1
    modifies outb
    ensures end == optr + |input| - queryp
    ensures outb[..end] == old(outb[..optr]) + input[queryp..] && outb[end] == NUL
  {
    var qlen := |input| - queryp;
    for i := 0 to qlen
      invariant outb[..optr + i] == old(outb[..optr]) + input[queryp..queryp + i]
    {
      outb[optr + i] := input[queryp + i];
    }
    end := optr + qlen;
    assert input[queryp..queryp + qlen] == input[queryp..];
    ghost var written := outb[..end];
    outb[end] := NUL;
    assert outb[..end] == written;
  }

  /** strchr(clone, '?'), or the end. */
  method FindQuery(s: string) returns (q: nat)
    ensures q == NextQuery(s, 0)
  {
    q := 0;
    while q < |s| && s[q] != '?'
      invariant q <= |s| && NextQuery(s, q) == NextQuery(s, 0)
    {
      q := q + 1;
    }
  }

  // ---------------------------------------------------------------- a stack of segments

  /** The segments of a path that starts with '/'. */
  function Split(p: string): (segs: seq<string>)
    requires p != "" && p[0] == '/'
    ensures segs != [] && forall s | s in segs :: '/' !in s
    decreases |p|
  {
    var k := NextSlash(p, 1);
    [p[1..k]] + if k == |p| then [] else Split(p[k..])
  }

  function Join(segs: seq<string>): string {
    if segs == [] then "" else Join(segs[..|segs| - 1]) + ("/" + segs[|segs| - 1])
  }

  function Pop(stack: seq<string>): seq<string> {
    if stack == [] then [] else stack[..|stack| - 1]
  }

  /** '.' skips, '..' pops, any other segment is pushed. */
  function Step(stack: seq<string>, seg: string): seq<string> {
    if seg == "." then stack else if seg == ".." then Pop(stack) else stack + [seg]
  }

  /** A path that ends in a dot segment ends in '/'. */
  function Fold(stack: seq<string>, segs: seq<string>): seq<string>
    decreases |segs|
  {
    if segs == [] then stack
    else
      var next := Step(stack, segs[0]);
      if |segs| == 1 && segs[0] in {".", ".."} then next + [""] else Fold(next, segs[1..])
  }

  ghost predicate NoSlash(segs: seq<string>) {
    forall s | s in segs :: '/' !in s
  }

  lemma JoinPush(stack: seq<string>, s: string)
    ensures Join(stack + [s]) == Join(stack) + "/" + s
  {
    assert (stack + [s])[..|stack|] == stack;
  }

  /** Dropping the last segment of the output buffer pops the stack. */
  lemma DropLastPops(stack: seq<string>)
    requires NoSlash(stack)
    ensures DropLast(Join(stack)) == Join(Pop(stack))
  {
    if stack != [] {
      DropLastSegment(Join(Pop(stack)), stack[|stack| - 1]);
    }
  }

  lemma {:induction false} DropLastSegment(o: string, s: string)
    requires '/' !in s
    ensures DropLast(o + ("/" + s)) == o
    decreases |s|
  {
    var all := o + ("/" + s);
    if s == "" {
      assert all[..|all| - 1] == o;
    } else {
      assert all[|all| - 1] == s[|s| - 1] && s[|s| - 1] in s;
      assert all[..|all| - 1] == o + ("/" + s[..|s| - 1]);
      DropLastSegment(o, s[..|s| - 1]);
    }
  }

  /** `lit` and then '/' or the end follow the leading '/'. */
  predicate Leads(p: string, lit: string) {
    |lit| < |p| && p[1..|lit| + 1] == lit && (|p| == |lit| + 1 || p[|lit| + 1] == '/')
  }

  lemma SegmentIs(p: string, lit: string)
    requires p != "" && '/' !in lit
    ensures p[1..NextSlash(p, 1)] == lit <==> Leads(p, lit)
    ensures Leads(p, lit) ==> NextSlash(p, 1) == |lit| + 1
  {
    if Leads(p, lit) {
      forall i | 1 <= i <= |lit| ensures p[i] != '/' {
        assert p[i] == p[1..|lit| + 1][i - 1] && lit[i - 1] in lit;
      }
    }
  }

  /** The rules on a path that starts with '/'. */
  lemma RuleOfSegment(p: string)
    requires p != "" && p[0] == '/'
    ensures var k := NextSlash(p, 1);
            RuleFor(p) == if p[1..k] == "." then (if k == |p| then EndsInDot else Skip(k))
                          else if p[1..k] == ".." then (if k == |p| then EndsInUp else Up)
                          else Move
    ensures p[1..NextSlash(p, 1)] == ".." ==> NextSlash(p, 1) == 3
  {
    SegmentIs(p, ".");
    SegmentIs(p, "..");
    TestsAreLeads(p);
  }

  lemma TestsAreLeads(p: string)
    requires p != "" && p[0] == '/'
    ensures !Starts(p, "./") && !Starts(p, "../") && p != "." && p != ".."
    ensures Leads(p, ".") <==> Starts(p, "/./") || p == "/."
    ensures Leads(p, "..") <==> Starts(p, "/../") || p == "/.."
  {
    assert Starts(p, "/./") ==> p[1..2] == p[..3][1..2] && p[2] == p[..3][2];
    assert Starts(p, "/../") ==> p[1..3] == p[..4][1..3] && p[3] == p[..4][3];
    if Leads(p, ".") {
      assert p[1] == p[1..2][0];
      assert |p| > 2 ==> p[..3] == "/./";
      assert |p| == 2 ==> p == "/.";
    }
    if Leads(p, "..") {
      assert p[1] == p[1..3][0] && p[2] == p[1..3][1];
      assert |p| > 3 ==> p[..4] == "/../";
      assert |p| == 3 ==> p == "/..";
    }
  }

  /** Taking the last segment: the output is the joined stack. */
  lemma LastSegment(stack: seq<string>, p: string)
    requires p != "" && p[0] == '/' && NoSlash(stack) && NextSlash(p, 1) == |p|
    ensures Remove(Join(stack), p) == Join(Fold(stack, Split(p)))
  {
    var seg := p[1..];
    assert p[1..|p|] == seg && p[|p|..] == "" && p[..|p|] == p == "/" + seg;
    RuleOfSegment(p);
    assert Split(p) == [seg] && [seg][1..] == [];
    if seg == "." {
      JoinPush(stack, "");
      RemoveRoot(Join(stack));
    } else if seg == ".." {
      DropLastPops(stack);
      JoinPush(Pop(stack), "");
      RemoveRoot(Join(Pop(stack)));
    } else {
      JoinPush(stack, seg);
      assert Join(stack) + p == Join(stack + [seg]);
    }
  }

  lemma SkipStep(o: string, p: string, n: nat)
    requires p != "" && RuleFor(p) == Skip(n)
    ensures Remove(o, p) == Remove(o, p[n..])
  {
  }

  lemma UpStep(o: string, p: string)
    requires p != "" && RuleFor(p) == Up
    ensures |p| > 3 && Remove(o, p) == Remove(DropLast(o), p[3..])
  {
  }

  lemma MoveStep(o: string, p: string)
    requires p != "" && RuleFor(p) == Move
    ensures Remove(o, p) == Remove(o + p[..NextSlash(p, 1)], p[NextSlash(p, 1)..])
  {
  }

  lemma MoveIsPush(stack: seq<string>, p: string, k: nat)
    requires 1 <= k <= |p| && p[0] == '/'
    ensures Join(stack) + p[..k] == Join(stack + [p[1..k]])
  {
    JoinPush(stack, p[1..k]);
    assert p[..k] == "/" + p[1..k];
    assert Join(stack) + p[..k] == Join(stack) + "/" + p[1..k];
  }

  /** Taking any other segment: the buffers and the stack take the same step. */
  lemma InnerSegment(stack: seq<string>, p: string)
    requires p != "" && p[0] == '/' && NoSlash(stack) && NextSlash(p, 1) < |p|
    ensures var k := NextSlash(p, 1);
            Remove(Join(stack), p) == Remove(Join(Step(stack, p[1..k])), p[k..])
  {
    var k := NextSlash(p, 1);
    var seg := p[1..k];
    RuleOfSegment(p);
    if seg == "." {
      SkipStep(Join(stack), p, k);
    } else if seg == ".." {
      UpStep(Join(stack), p);
      DropLastPops(stack);
    } else {
      MoveStep(Join(stack), p);
      MoveIsPush(stack, p, k);
    }
  }

  lemma InnerFold(stack: seq<string>, p: string)
    requires p != "" && p[0] == '/' && NextSlash(p, 1) < |p|
    ensures var k := NextSlash(p, 1);
            Fold(stack, Split(p)) == Fold(Step(stack, p[1..k]), Split(p[k..]))
  {
    var k := NextSlash(p, 1);
    assert Split(p) == [p[1..k]] + Split(p[k..]) && ([p[1..k]] + Split(p[k..]))[1..] == Split(p[k..]);
  }

  /** The RFC's rules are a fold over a stack of segments. */
  lemma {:induction false} RemoveIsFold(stack: seq<string>, p: string)
    requires p != "" && p[0] == '/' && NoSlash(stack)
    ensures Remove(Join(stack), p) == Join(Fold(stack, Split(p)))
    decreases |p|
  {
    var k := NextSlash(p, 1);
    if k == |p| {
      LastSegment(stack, p);
    } else {
      InnerSegment(stack, p);
      InnerFold(stack, p);
      RemoveIsFold(Step(stack, p[1..k]), p[k..]);
    }
  }

  lemma RemoveRoot(o: string)
    ensures Remove(o, "/") == o + "/"
  {
    assert NextSlash("/", 1) == 1;
    assert RuleFor("/") == Move;
  }

  // ---------------------------------------------------------------- what the result looks like

  predicate Plain(segs: seq<string>) {
    forall s | s in segs :: '/' !in s && s != "." && s != ".."
  }

  lemma {:induction false} FoldIsPlain(stack: seq<string>, segs: seq<string>)
    requires Plain(stack) && NoSlash(segs)
    ensures Plain(Fold(stack, segs)) && (segs != [] ==> Fold(stack, segs) != [])
    ensures Plain(segs) ==> Fold(stack, segs) == stack + segs
    decreases |segs|
  {
    if segs != [] {
      assert segs == [segs[0]] + segs[1..] && segs[0] in segs;
      if segs[0] == "." {
        FoldIsPlain(stack, segs[1..]);
      } else if segs[0] == ".." {
        FoldIsPlain(Pop(stack), segs[1..]);
      } else {
        FoldIsPlain(stack + [segs[0]], segs[1..]);
        assert stack + [segs[0]] + segs[1..] == stack + segs;
        FoldGrows(stack, segs);
      }
    }
  }

  /** The last segment always leaves something on the stack. */
  lemma {:induction false} FoldGrows(stack: seq<string>, segs: seq<string>)
    requires segs != []
    ensures Fold(stack, segs) != []
    decreases |segs|
  {
    if |segs| > 1 {
      FoldGrows(Step(stack, segs[0]), segs[1..]);
    } else {
      assert segs[1..] == [];
    }
  }

  lemma {:induction false} JoinHead(segs: seq<string>)
    requires segs != []
    ensures Join(segs) == "/" + segs[0] + Join(segs[1..])
    decreases |segs|
  {
    if |segs| > 1 {
      var front, last, tail := segs[..|segs| - 1], segs[|segs| - 1], segs[1..];
      JoinHead(front);
      assert front[1..] == tail[..|tail| - 1] && tail[|tail| - 1] == last;
      assert Join(segs) == "/" + segs[0] + Join(front[1..]) + ("/" + last);
      assert Join(tail) == Join(front[1..]) + ("/" + last);
    }
  }

  lemma {:induction false} SplitJoin(segs: seq<string>)
    requires segs != [] && NoSlash(segs)
    ensures Join(segs) != "" && Join(segs)[0] == '/' && Split(Join(segs)) == segs
    decreases |segs|
  {
    JoinHead(segs);
    var p, rest := Join(segs), Join(segs[1..]);
    SegmentIs(p, segs[0]);
    if |segs| == 1 {
      assert p == "/" + segs[0];
    } else {
      SplitJoin(segs[1..]);
      assert p[..|segs[0]| + 2] == "/" + segs[0] + "/";
      assert p[|segs[0]| + 1..] == rest;
    }
  }

  /** From a path that starts with '/' comes one that starts with '/' and has no dot segment. */
  lemma RootedHasNoDots(p: string)
    requires p != "" && p[0] == '/'
    ensures var r := Remove("", p);
            r != "" && r[0] == '/' && Plain(Split(r)) && r == Join(Fold([], Split(p)))
  {
    RemoveIsFold([], p);
    FoldIsPlain([], Split(p));
    SplitJoin(Fold([], Split(p)));
  }

  lemma RootedIsIdempotent(p: string)
    requires p != "" && p[0] == '/'
    ensures Remove("", Remove("", p)) == Remove("", p)
  {
    RootedHasNoDots(p);
    var segs := Fold([], Split(p));
    FoldIsPlain([], Split(p));
    SplitJoin(segs);
    RemoveIsFold([], Join(segs));
    FoldIsPlain([], segs);
    assert [] + segs == segs;
  }

  /** Output written never exceeds the input consumed. */
  lemma {:induction false} RemoveFits(o: string, p: string)
    ensures |Remove(o, p)| <= |o| + |p|
    ensures '?' !in o && '?' !in p ==> '?' !in Remove(o, p)
    decreases |p|
  {
    if p != "" {
      match RuleFor(p) {
        case Skip(n) => RemoveFits(o, p[n..]);
        case EndsInDot => RemoveFits(o, "/");
        case Up => RemoveFits(DropLast(o), p[3..]);
        case EndsInUp => RemoveFits(DropLast(o), "/");
        case Vanish =>
        case Move => RemoveFits(o + p[..NextSlash(p, 1)], p[NextSlash(p, 1)..]);
      }
    }
  }

  // ---------------------------------------------------------------- relative paths

  /** The text starts with a segment, not with '/'. */
  predicate Relative(o: string) {
    o != "" && o[0] != '/'
  }

  lemma {:induction false} DropLastRelative(o: string)
    requires Relative(o)
    ensures DropLast("/" + o) == (if '/' in o then "/" + DropLast(o) else "")
    ensures if '/' in o then Relative(DropLast(o)) else DropLast(o) == ""
  {
    var n := |o| - 1;
    assert ("/" + o)[..n + 1] == "/" + o[..n];
    if n == 0 {
      assert o[..n] == "";
    } else if o[n] != '/' {
      DropLastRelative(o[..n]);
      assert o == o[..n] + [o[n]];
    }
  }

  /** `r` is the path `s`, or all of it but its leading '/'. */
  predicate Unrooted(r: string, s: string) {
    r == s || (Relative(r) && s == "/" + r)
  }

  /** Without the leading '/', the output stays without it until its first segment is dropped. */
  lemma {:induction false} RemoveRelative(o: string, p: string)
    requires Relative(o) && (p != "" ==> p[0] == '/')
    ensures Unrooted(Remove(o, p), Remove("/" + o, p))
    decreases |p|
  {
    if p != "" {
      TestsAreLeads(p);
      RuleOfSegment(p);
      match RuleFor(p) {
        case Skip(n) => RemoveRelative(o, p[n..]);
        case EndsInDot =>
          RemoveRoot(o);
          RemoveRoot("/" + o);
        case Up =>
          DropLastRelative(o);
          if '/' in o {
            RemoveRelative(DropLast(o), p[3..]);
          }
        case EndsInUp =>
          DropLastRelative(o);
          RemoveRoot(DropLast(o));
          RemoveRoot("/" + DropLast(o));
        case Move =>
          var k := NextSlash(p, 1);
          RemoveRelative(o + p[..k], p[k..]);
          assert "/" + o + p[..k] == "/" + (o + p[..k]);
      }
    }
  }

  /** The path with the leading dot segments dropped, and with a leading '/'. */
  function Rooted(p: string): (r: string)
    ensures r != "" && r[0] == '/'
    decreases |p|
  {
    if Starts(p, "./") then Rooted(p[2..])
    else if Starts(p, "../") then Rooted(p[3..])
    else if p != "" && p[0] == '/' then p else "/" + p
  }

  lemma {:induction false} NextSlashShift(p: string, i: nat)
    requires i <= |p|
    ensures NextSlash("/" + p, i + 1) == NextSlash(p, i) + 1
    decreases |p| - i
  {
    if i < |p| && p[i] != '/' {
      NextSlashShift(p, i + 1);
    }
  }

  lemma LeadsIsStarts(p: string, lit: string)
    ensures Leads("/" + p, lit) <==> p == lit || Starts(p, lit + "/")
  {
    var q := "/" + p;
    if |lit| <= |p| {
      assert q[1..|lit| + 1] == p[..|lit|];
      assert |p| == |lit| ==> p[..|lit|] == p;
      if |lit| < |p| {
        assert p[..|lit| + 1] == p[..|lit|] + [q[|lit| + 1]];
      }
    }
  }

  lemma FirstSegmentLeads(p: string)
    ensures Leads("/" + p, ".") <==> p == "." || Starts(p, "./")
    ensures Leads("/" + p, "..") <==> p == ".." || Starts(p, "../")
  {
    LeadsIsStarts(p, ".");
    LeadsIsStarts(p, "..");
    assert "." + "/" == "./" && ".." + "/" == "../";
  }

  lemma MoveBehindSlash(p: string)
    requires Relative(p) && RuleFor(p) == Move
    ensures RuleFor("/" + p) == Move
  {
    FirstSegmentLeads(p);
    TestsAreLeads("/" + p);
  }

  /** The slices of a path with a '/' in front. */
  lemma SlashSlices(p: string, k: nat)
    requires k <= |p|
    ensures ("/" + p)[..k + 1] == "/" + p[..k] && ("/" + p)[k + 1..] == p[k..]
  {
  }

  lemma MoveFirst(o: string, p: string)
    requires o == "" && p != "" && RuleFor(p) == Move
    ensures Remove(o, p) == Remove(p[..NextSlash(p, 1)], p[NextSlash(p, 1)..])
  {
    MoveStep(o, p);
    assert o + p[..NextSlash(p, 1)] == p[..NextSlash(p, 1)];
  }

  /** A first segment is moved, whether there is a '/' before it or not. */
  lemma FirstMove(p: string)
    requires Relative(p) && RuleFor(p) == Move
    ensures var k := NextSlash(p, 1);
            Remove("", p) == Remove(p[..k], p[k..]) && Remove("", "/" + p) == Remove("/" + p[..k], p[k..])
  {
    var k := NextSlash(p, 1);
    MoveBehindSlash(p);
    NextSlashShift(p, 0);
    SlashSlices(p, k);
    MoveFirst("", p);
    MoveFirst("", "/" + p);
  }

  /** Any path is treated as the one with a leading '/', except for that '/'. */
  lemma {:induction false} RemoveIsRooted(p: string)
    requires !Vanishes(p)
    ensures Unrooted(Remove("", p), Remove("", Rooted(p)))
    decreases |p|
  {
    if Starts(p, "./") {
      RemoveIsRooted(p[2..]);
    } else if Starts(p, "../") {
      RemoveIsRooted(p[3..]);
    } else if p[0] != '/' {
      FirstMove(p);
      RemoveRelative(p[..NextSlash(p, 1)], p[NextSlash(p, 1)..]);
    }
  }

  lemma VanishesBehind(p: string, n: nat)
    requires Relative(p) && RuleFor(p) == Skip(n)
    ensures Vanishes(p) <==> Vanishes(p[n..])
  {
    assert Starts(p, "./") ==> p[1] == p[..2][1];
    assert Starts(p, "../") ==> p[1] == p[..3][1];
  }

  lemma NothingMoved(p: string)
    requires Vanishes(p) && (Relative(p) ==> !RuleFor(p).Skip?)
    ensures Remove("", p) == ""
  {
    if p != "" {
      assert RuleFor(p) == Vanish;
    }
  }

  /** The output is empty exactly when the path vanishes. */
  lemma {:induction false} VanishesExactly(p: string)
    ensures Remove("", p) == "" <==> Vanishes(p)
    decreases |p|
  {
    if Relative(p) && RuleFor(p).Skip? {
      var n := RuleFor(p).n;
      VanishesBehind(p, n);
      SkipStep("", p, n);
      VanishesExactly(p[n..]);
    } else if Vanishes(p) {
      NothingMoved(p);
    } else {
      RemoveIsRooted(p);
      RootedHasNoDots(Rooted(p));
    }
  }

  /** An input for which no output is written. */
  lemma DotVanishes()
    ensures Vanishes(PathOf(".")) && Dedot(".") == ""
  {
    assert PathOf(".") == ".";
    VanishesExactly(".");
  }

  /** A path with a leading '/' that has no dot segment. */
  predicate Clean(s: string) {
    s != "" && s[0] == '/' && Plain(Split(s))
  }

  /**
   No dot segment is left: the output is empty, or it is the joined fold of the segments, or that
   without its leading '/'.
   */
  lemma NoDotSegmentIsLeft(p: string)
    ensures var r, s := Remove("", p), Join(Fold([], Split(Rooted(p))));
            Clean(s) && if Vanishes(p) then r == "" else Unrooted(r, s)
    ensures p != "" && p[0] == '/' ==> Remove("", p) == Join(Fold([], Split(p)))
  {
    RootedHasNoDots(Rooted(p));
    VanishesExactly(p);
    if !Vanishes(p) {
      RemoveIsRooted(p);
    }
    if p != "" && p[0] == '/' {
      RootedHasNoDots(p);
    }
  }

  /** The first segment of a clean path is no dot segment. */
  lemma CleanIsMoved(r: string)
    requires Relative(r) && Clean("/" + r)
    ensures !Vanishes(r) && Rooted(r) == "/" + r
  {
    var s := "/" + r;
    var k := NextSlash(s, 1);
    assert Split(s)[0] == s[1..k] && s[1..k] in Split(s);
    SegmentIs(s, ".");
    SegmentIs(s, "..");
    FirstSegmentLeads(r);
  }

  /** Removing dot segments twice is removing them once. */
  lemma RemoveIsIdempotent(p: string)
    ensures Remove("", Remove("", p)) == Remove("", p)
  {
    var r, s := Remove("", p), Remove("", Rooted(p));
    RootedHasNoDots(Rooted(p));
    RootedIsIdempotent(Rooted(p));
    NoDotSegmentIsLeft(p);
    if r != "" && r != s {
      CleanIsMoved(r);
      RemoveIsRooted(r);
      RemoveFits("", r);
      var again := Remove("", r);
      assert ("/" + again)[1..] == again && ("/" + r)[1..] == r;
    }
  }

  /** The query is kept verbatim, the result fits the buffer, and a second call changes nothing. */
  lemma DedotKeepsTheQuery(s: string)
    ensures QueryOf(Dedot(s)) == QueryOf(s) && PathOf(Dedot(s)) == Remove("", PathOf(s))
    ensures |Dedot(s)| <= |s| && Dedot(Dedot(s)) == Dedot(s)
  {
    var path, query := PathOf(s), QueryOf(s);
    RemoveFits("", path);
    QueryFound(Remove("", path), query);
    RemoveIsIdempotent(path);
  }

  lemma {:induction false} NextQueryAfter(path: string, query: string, i: nat)
    requires '?' !in path && (query != "" ==> query[0] == '?') && i <= |path|
    ensures NextQuery(path + query, i) == |path|
    decreases |path| - i
  {
    if i < |path| {
      assert path[i] in path;
      NextQueryAfter(path, query, i + 1);
    }
  }

  lemma QueryFound(path: string, query: string)
    requires '?' !in path && (query != "" ==> query[0] == '?')
    ensures PathOf(path + query) == path && QueryOf(path + query) == query
  {
    NextQueryAfter(path, query, 0);
  }
}
