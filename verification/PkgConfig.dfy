/**
 The package ordering of pkgconfig.py: the requirements of a package, its weight, and the order that
 sorting by weight gives.
 */
module PkgConfig {
  import opened Basics

  // ---------------------------------------------------------------- requirements

  /** string.whitespace. */
  predicate IsSpace(c: char) {
    c == ' ' || 9 <= c as int <= 13
  }

  predicate IsOperator(c: char) {
    c == '=' || c == '<' || c == '>'
  }

  function LeftStrip(s: string): string {
    if s != [] && IsSpace(s[0]) then LeftStrip(s[1..]) else s
  }

  function RightStrip(s: string): (r: string)
    ensures r <= s
  {
    if s != [] && IsSpace(s[|s| - 1]) then RightStrip(s[..|s| - 1]) else s
  }

  /** str.strip. */
  function Strip(s: string): string {
    RightStrip(LeftStrip(s))
  }

  /** str.split(','). */
  function Split(s: string): seq<string> {
    if ',' !in s then [s]
    else
      var r := Split(s[1..]);
      if s[0] == ',' then [[]] + r else [[s[0]] + r[0]] + r[1..]
  }

  /** Where the first comparison operator stands, or the length. */
  function OperatorAt(s: string): (i: nat)
    ensures i <= |s| && (i < |s| ==> IsOperator(s[i])) && forall k | 0 <= k < i :: !IsOperator(s[k])
  {
    if s == [] || IsOperator(s[0]) then 0 else 1 + OperatorAt(s[1..])
  }

  /** The package named by one item of the list; an item without an operator names none. */
  function Requirement(item: string): Option<string> {
    var s := Strip(item);
    if OperatorAt(s) < |s| then Some(Strip(s[..OperatorAt(s)])) else None
  }

  function Requirements(items: seq<string>, n: nat): seq<string>
    requires n <= |items|
  {
    if n == 0 then []
    else
      var r := Requirement(items[n - 1]);
      Requirements(items, n - 1) + if r.Some? then [r.value] else []
  }

  /** Pkg.requires, given the value of 'requires', if there is one. */
  method Requires(text: Option<string>) returns (deps: seq<string>)
    ensures deps == if text.None? then []
                    else Requirements(Split(text.value), |Split(text.value)|)
  {
    if text.None? {
      return [];
    }
    deps := [];
    var items := Split(text.value);
    for k := 0 to |items|
      invariant deps == Requirements(items, k)
    {
      var item := Strip(items[k]);
      var i := 0;
      while i < |item| && !IsOperator(item[i])
        invariant 0 <= i <= OperatorAt(item)
      {
        i := i + 1;
      }
      if i < |item| {
        deps := deps + [Strip(item[..i])];
      }
    }
  }

  lemma {:induction false} StripLeading(pre: string, s: string)
    requires (forall c | c in pre :: IsSpace(c)) && (s != [] ==> !IsSpace(s[0]))
    ensures LeftStrip(pre + s) == s
  {
    if pre == [] {
      assert pre + s == s;
    } else {
      assert (pre + s)[1..] == pre[1..] + s;
      StripLeading(pre[1..], s);
    }
  }

  lemma {:induction false} StripTrailing(s: string, post: string)
    requires (forall c | c in post :: IsSpace(c)) && (s != [] ==> !IsSpace(s[|s| - 1]))
    ensures RightStrip(s + post) == s
  {
    if post == [] {
      assert s + post == s;
    } else {
      assert (s + post)[..|s + post| - 1] == s + post[..|post| - 1];
      StripTrailing(s, post[..|post| - 1]);
    }
  }

  /** Stripping on the right stops at a character that is not a space. */
  lemma {:induction false} StripStops(s: string, k: nat)
    requires k < |s| && !IsSpace(s[k])
    ensures k < |RightStrip(s)|
  {
    if IsSpace(s[|s| - 1]) {
      StripStops(s[..|s| - 1], k);
    }
  }

  lemma {:induction false} OperatorAfter(s: string, k: nat)
    requires k < |s| && IsOperator(s[k]) && forall i | 0 <= i < k :: !IsOperator(s[i])
    ensures OperatorAt(s) == k
  {
  }

  predicate PlainName(name: string) {
    && name != [] && !IsSpace(name[0]) && !IsSpace(name[|name| - 1])
    && forall c | c in name :: !IsOperator(c) && c != ','
  }

  predicate Spaces(s: string) {
    forall c | c in s :: IsSpace(c)
  }

  /** The first operator of an item is that of its version. */
  lemma FirstOperator(name: string, mid: string, version: string, s: string)
    requires Spaces(mid) && PlainName(name) && version != [] && IsOperator(version[0])
    requires s <= name + mid + version && |name + mid| < |s|
    ensures OperatorAt(s) == |name + mid| && s[..|name + mid|] == name + mid
  {
    var k := |name + mid|;
    assert s[k] == version[0];
    forall i | 0 <= i < k ensures !IsOperator(s[i]) {
      assert i < |name| ==> s[i] == name[i] && name[i] in name;
      assert i >= |name| ==> s[i] == mid[i - |name|] && mid[i - |name|] in mid;
    }
    OperatorAfter(s, k);
  }

  lemma StripName(name: string, mid: string)
    requires Spaces(mid) && PlainName(name)
    ensures Strip(name + mid) == name
  {
    StripTrailing(name, mid);
    StripLeading([], name + mid);
    assert [] + (name + mid) == name + mid;
  }

  /** An item of the form "name op version", with spaces anywhere between, names its package. */
  lemma ItemNamesPackage(pre: string, name: string, mid: string, version: string)
    requires Spaces(pre) && Spaces(mid) && PlainName(name) && version != [] && IsOperator(version[0])
    ensures Requirement(pre + name + mid + version) == Some(name)
  {
    var rest := name + mid + version;
    assert pre + name + mid + version == pre + rest;
    StripLeading(pre, rest);
    assert rest[|name + mid|] == version[0];
    StripStops(rest, |name + mid|);
    FirstOperator(name, mid, version, RightStrip(rest));
    StripName(name, mid);
  }

  lemma {:induction false} NoOperator(s: string)
    requires forall c | c in s :: !IsOperator(c)
    ensures OperatorAt(s) == |s|
  {
    if s != [] {
      NoOperator(s[1..]);
    }
  }

  lemma {:induction false} StripKeepsOut(s: string)
    ensures forall c | c in Strip(s) :: c in s
  {
    LeftStripKeepsOut(s);
  }

  lemma {:induction false} LeftStripKeepsOut(s: string)
    ensures forall c | c in LeftStrip(s) :: c in s
  {
    if s != [] && IsSpace(s[0]) {
      LeftStripKeepsOut(s[1..]);
    }
  }

  /** An item without a comparison operator names no package. */
  lemma UnversionedNamesNone(pre: string, name: string, mid: string)
    requires Spaces(pre) && Spaces(mid) && PlainName(name)
    ensures Requirement(pre + name + mid) == None
  {
    var text := pre + name + mid;
    forall c | c in Strip(text) ensures !IsOperator(c) {
      StripKeepsOut(text);
      assert c in pre || c in name || c in mid;
    }
    NoOperator(Strip(text));
  }

  /** Each of the three operators, doubled or not, sets the version off. */
  lemma OperatorsAre(name: string, op: char, version: string)
    requires PlainName(name) && op in "=<>"
    ensures Requirement(name + " " + ([op] + version)) == Some(name)
  {
    ItemNamesPackage("", name, " ", [op] + version);
    assert "" + name == name;
  }

  /** One requirement as a .pc file writes it; without a version, `version` is empty. */
  datatype Item = Item(pre: string, name: string, mid: string, version: string)
  {
    predicate Ok() {
      && Spaces(pre) && Spaces(mid) && PlainName(name) && (version != [] ==> IsOperator(version[0]))
      && ',' !in version
    }

    function Text(): string {
      pre + name + mid + version
    }
  }

  function Join(items: seq<Item>): string
    requires items != []
  {
    if |items| == 1 then items[0].Text() else items[0].Text() + "," + Join(items[1..])
  }

  lemma {:induction false} SplitFirst(a: string, b: string)
    requires ',' !in a
    ensures Split(a) == [a] && Split(a + "," + b) == [a] + Split(b)
  {
    var s := a + "," + b;
    assert s[|a|] == ',';
    if a != [] {
      assert s[1..] == a[1..] + "," + b;
      SplitFirst(a[1..], b);
      assert [a[0]] + a[1..] == a;
    } else {
      assert s[1..] == b;
    }
  }

  lemma {:induction false} SplitJoined(items: seq<Item>)
    requires items != [] && forall i | 0 <= i < |items| :: items[i].Ok()
    ensures var r := Split(Join(items)); |r| == |items| && forall i | 0 <= i < |items| :: r[i] == items[i].Text()
  {
    forall c | c in items[0].Text() ensures c != ',' {
      var t := items[0];
      assert c in t.pre || c in t.name || c in t.mid || c in t.version;
    }
    if |items| > 1 {
      SplitFirst(items[0].Text(), Join(items[1..]));
      SplitJoined(items[1..]);
    } else {
      SplitFirst(items[0].Text(), []);
    }
  }

  /** The names of the first `n` items, those without a version left out. */
  function Names(items: seq<Item>, n: nat): seq<string>
    requires n <= |items|
  {
    if n == 0 then []
    else Names(items, n - 1) + if items[n - 1].version != [] then [items[n - 1].name] else []
  }

  lemma {:induction false} ItemsNamePackages(texts: seq<string>, items: seq<Item>, n: nat)
    requires n <= |items| == |texts|
    requires forall i | 0 <= i < |items| :: items[i].Ok() && texts[i] == items[i].Text()
    ensures Requirements(texts, n) == Names(items, n)
  {
    if n > 0 {
      ItemsNamePackages(texts, items, n - 1);
      var t := items[n - 1];
      if t.version != [] {
        ItemNamesPackage(t.pre, t.name, t.mid, t.version);
      } else {
        UnversionedNamesNone(t.pre, t.name, t.mid);
        assert t.Text() == t.pre + t.name + t.mid;
      }
    }
  }

  /** A list names exactly the packages of its items that have a version, in order. */
  lemma ListNamesPackages(items: seq<Item>)
    requires items != [] && forall i | 0 <= i < |items| :: items[i].Ok()
    ensures var texts := Split(Join(items));
            Requirements(texts, |texts|) == Names(items, |items|)
  {
    SplitJoined(items);
    ItemsNamePackages(Split(Join(items)), items, |items|);
  }

  // ---------------------------------------------------------------- weights

  /** pkg_dict: the requirements of every package given on the command line. */
  type Graph = map<string, seq<string>>

  const LIMIT: nat := 10

  /** calculate_pkg_priority: nothing is added from the eleventh level on. */
  function Weight(g: Graph, p: string, cnt: nat): nat
    requires p in g && cnt <= LIMIT + 1
    decreases LIMIT + 1 - cnt, 0
  {
    if cnt > LIMIT then 0 else 1 + Weights(g, g[p], |g[p]|, cnt + 1)
  }

  /** The weights of the first `n` requirements, those not on the command line left out. */
  function Weights(g: Graph, reqs: seq<string>, n: nat, cnt: nat): nat
    requires n <= |reqs| && cnt <= LIMIT + 1
    decreases LIMIT + 1 - cnt, n + 1
  {
    if n == 0 then 0
    else Weights(g, reqs, n - 1, cnt) + if reqs[n - 1] in g then Weight(g, reqs[n - 1], cnt) else 0
  }

  /** Packages each of which requires the next. */
  ghost predicate IsChain(g: Graph, chain: seq<string>) {
    && chain != [] && (forall i | 0 <= i < |chain| :: chain[i] in g)
    && forall i | 0 <= i < |chain| - 1 :: chain[i + 1] in g[chain[i]]
  }

  /** Some chain of `n` packages starts at `p`. */
  ghost predicate Reaches(g: Graph, p: string, n: nat) {
    exists chain :: IsChain(g, chain) && chain[0] == p && |chain| == n
  }

  lemma ReachesStep(g: Graph, p: string, n: nat)
    requires p in g && n > 0
    ensures Reaches(g, p, n + 1) <==> exists q :: q in g && q in g[p] && Reaches(g, q, n)
  {
    if Reaches(g, p, n + 1) {
      var chain :| IsChain(g, chain) && chain[0] == p && |chain| == n + 1;
      assert IsChain(g, chain[1..]);
      assert chain[1] in g[p] && Reaches(g, chain[1], n);
    }
    if q :| q in g && q in g[p] && Reaches(g, q, n) {
      var chain :| IsChain(g, chain) && chain[0] == q && |chain| == n;
      assert IsChain(g, [p] + chain);
    }
  }

  lemma ReachesOne(g: Graph, p: string)
    requires p in g
    ensures Reaches(g, p, 1)
  {
    assert IsChain(g, [p]);
  }

  /** The recursion, with its warning. */
  method CalculatePriority(g: Graph, p: string, cnt: nat) returns (prio: nat, warned: bool)
    requires p in g && cnt <= LIMIT + 1
    ensures prio == Weight(g, p, cnt)
    ensures warned <==> Reaches(g, p, LIMIT + 2 - cnt)
    decreases LIMIT + 1 - cnt
  {
    if cnt > LIMIT {
      ReachesOne(g, p);
      return 0, true;
    }
    var reqs := g[p];
    prio, warned := 1, false;
    for i := 0 to |reqs|
      invariant prio == 1 + Weights(g, reqs, i, cnt + 1)
      invariant warned <==> exists k :: 0 <= k < i && reqs[k] in g && Reaches(g, reqs[k], LIMIT + 1 - cnt)
    {
      if reqs[i] in g {
        var more, w := CalculatePriority(g, reqs[i], cnt + 1);
        prio := prio + more;
        warned := warned || w;
      }
    }
    ReachesStep(g, p, LIMIT + 1 - cnt);
  }

  // ---------------------------------------------------------------- the order

  /** No chain of eleven packages starts here. */
  ghost predicate Short(g: Graph, p: string) {
    !Reaches(g, p, LIMIT + 1)
  }

  lemma {:induction false} WeightsAgree(g: Graph, reqs: seq<string>, n: nat, cnt: nat)
    requires n <= |reqs| && 0 < cnt <= LIMIT + 1
    requires forall i | 0 <= i < n && reqs[i] in g :: Weight(g, reqs[i], cnt) == Weight(g, reqs[i], cnt - 1)
    ensures Weights(g, reqs, n, cnt) == Weights(g, reqs, n, cnt - 1)
  {
    if n > 0 {
      WeightsAgree(g, reqs, n - 1, cnt);
    }
  }

  /** The level does not matter where nothing is cut off. */
  lemma {:induction false} LevelIsIrrelevant(g: Graph, p: string, cnt: nat)
    requires p in g && 0 < cnt <= LIMIT + 1 && !Reaches(g, p, LIMIT + 2 - cnt)
    ensures Weight(g, p, cnt) == Weight(g, p, cnt - 1)
    decreases LIMIT + 1 - cnt
  {
    if cnt == LIMIT + 1 {
      ReachesOne(g, p);
    } else {
      var reqs := g[p];
      ReachesStep(g, p, LIMIT + 1 - cnt);
      forall i | 0 <= i < |reqs| && reqs[i] in g
        ensures Weight(g, reqs[i], cnt + 1) == Weight(g, reqs[i], cnt)
      {
        LevelIsIrrelevant(g, reqs[i], cnt + 1);
      }
      WeightsAgree(g, reqs, |reqs|, cnt + 1);
    }
  }

  lemma {:induction false} WeightsCover(g: Graph, reqs: seq<string>, n: nat, cnt: nat, i: nat)
    requires i < n <= |reqs| && cnt <= LIMIT + 1 && reqs[i] in g
    ensures Weights(g, reqs, n, cnt) >= Weight(g, reqs[i], cnt)
  {
    if i < n - 1 {
      WeightsCover(g, reqs, n - 1, cnt, i);
    }
  }

  /** A package weighs more than each of its requirements, if no chain of eleven packages starts at it. */
  lemma HeavierThanRequirement(g: Graph, p: string, q: string)
    requires p in g && q in g && q in g[p] && Short(g, p)
    ensures Weight(g, p, 1) > Weight(g, q, 1) && Short(g, q)
  {
    ReachesStep(g, p, LIMIT);
    LevelIsIrrelevant(g, q, 2);
    var i: nat :| i < |g[p]| && g[p][i] == q;
    WeightsCover(g, g[p], |g[p]|, 2, i);
    if Reaches(g, q, LIMIT + 1) {
      ShorterChain(g, q, LIMIT);
    }
  }

  lemma ShorterChain(g: Graph, p: string, n: nat)
    requires n > 0 && Reaches(g, p, n + 1)
    ensures Reaches(g, p, n)
  {
    var chain :| IsChain(g, chain) && chain[0] == p && |chain| == n + 1;
    assert IsChain(g, chain[..n]);
  }

  /** The same for everything it requires indirectly. */
  lemma {:induction false} HeavierAlongChain(g: Graph, chain: seq<string>)
    requires IsChain(g, chain) && |chain| >= 2 && Short(g, chain[0])
    ensures Weight(g, chain[0], 1) > Weight(g, chain[|chain| - 1], 1)
  {
    HeavierThanRequirement(g, chain[0], chain[1]);
    if |chain| > 2 {
      assert IsChain(g, chain[1..]);
      HeavierAlongChain(g, chain[1..]);
    }
  }

  /** What sorted(..., reverse=True) gives: a permutation by descending priority. */
  ghost predicate SortedByPriority(names: seq<string>, sorted: seq<string>, priority: map<string, nat>) {
    && multiset(sorted) == multiset(names)
    && (forall p | p in sorted :: p in priority)
    && forall i, j | 0 <= i < j < |sorted| :: priority[sorted[i]] >= priority[sorted[j]]
  }

  /** The main block computes every priority at level 1. */
  method Prioritize(g: Graph) returns (priority: map<string, nat>, warned: bool)
    ensures Weighed(g, priority)
    ensures !warned <==> forall p | p in g :: Short(g, p)
  {
    priority, warned := map[], false;
    var todo := g.Keys;
    while todo != {}
      invariant todo <= g.Keys && priority.Keys == g.Keys - todo
      invariant forall p | p in priority :: priority[p] == Weight(g, p, 1)
      invariant !warned <==> forall p | p in priority :: Short(g, p)
      decreases |todo|
    {
      var p :| p in todo;
      var prio, w := CalculatePriority(g, p, 1);
      priority := priority[p := prio];
      warned := warned || w;
      todo := todo - {p};
    }
  }

  /**
   If no warning was printed, the order is topological: a package stands before everything it requires,
   directly or not, and no package requires itself.
   */
  lemma OrderIsTopological(g: Graph, names: seq<string>, sorted: seq<string>, priority: map<string, nat>,
                           i: nat, j: nat, chain: seq<string>)
    requires forall p | p in g :: Short(g, p)
    requires Weighed(g, priority)
    requires SortedByPriority(names, sorted, priority)
    requires i < |sorted| && j < |sorted| && IsChain(g, chain) && |chain| >= 2
    requires chain[0] == sorted[i] && chain[|chain| - 1] == sorted[j]
    ensures i < j
  {
    HeavierAlongChain(g, chain);
    assert sorted[i] in sorted && sorted[j] in sorted;
  }

  lemma LongChainIsSeen(g: Graph, chain: seq<string>)
    requires IsChain(g, chain)
    ensures chain[0] in g && (|chain| > 10 ==> !Short(g, chain[0]))
  {
    if |chain| > 10 {
      assert IsChain(g, chain[..11]) && chain[..11][0] == chain[0] && |chain[..11]| == 11;
    }
  }

  /** No warning is printed exactly if no chain has more than ten packages. */
  lemma ShortChainsExactly(g: Graph)
    ensures (forall p | p in g :: Short(g, p)) <==> (forall chain | IsChain(g, chain) :: |chain| <= 10)
  {
    forall chain | IsChain(g, chain) ensures |chain| > 10 ==> !Short(g, chain[0]) {
      LongChainIsSeen(g, chain);
    }
  }

  /** If no chain has more than ten packages, every package stands before what it requires. */
  lemma TenInARowAreOrdered(g: Graph, names: seq<string>, sorted: seq<string>, priority: map<string, nat>,
                            i: nat, j: nat)
    requires forall chain | IsChain(g, chain) :: |chain| <= 10
    requires Weighed(g, priority) && SortedByPriority(names, sorted, priority)
    requires i < |sorted| && j < |sorted| && sorted[i] in g && sorted[j] in g && sorted[j] in g[sorted[i]]
    ensures i < j
  {
    ShortChainsExactly(g);
    OrderIsTopological(g, names, sorted, priority, i, j, [sorted[i], sorted[j]]);
  }

  /** A package that requires itself, directly or not, is always reported. */
  lemma CycleIsReported(g: Graph, chain: seq<string>)
    requires IsChain(g, chain) && |chain| >= 2 && chain[0] == chain[|chain| - 1]
    ensures !Short(g, chain[0])
  {
    if Short(g, chain[0]) {
      HeavierAlongChain(g, chain);
    }
  }

  // ---------------------------------------------------------------- weights count chains

  /** How many chains of exactly `n` packages start at `p`; a requirement listed twice counts twice. */
  function Chains(g: Graph, p: string, n: nat): nat
    requires p in g
    decreases n, 0
  {
    if n <= 1 then n else ChainsFrom(g, g[p], n - 1)
  }

  function ChainsFrom(g: Graph, reqs: seq<string>, n: nat): nat
    decreases n, |reqs| + 1
  {
    if reqs == [] then 0
    else
      var last := reqs[|reqs| - 1];
      ChainsFrom(g, reqs[..|reqs| - 1], n) + if last in g then Chains(g, last, n) else 0
  }

  /** How many chains of at most `n` packages start at `p`. */
  function ChainsUpTo(g: Graph, p: string, n: nat): nat
    requires p in g
  {
    if n == 0 then 0 else ChainsUpTo(g, p, n - 1) + Chains(g, p, n)
  }

  /** The same for a list of packages. */
  function AllChainsUpTo(g: Graph, reqs: seq<string>, n: nat): nat {
    if n == 0 then 0 else AllChainsUpTo(g, reqs, n - 1) + ChainsFrom(g, reqs, n)
  }

  /** One more package at the front: the package itself, or a chain from one of its requirements. */
  lemma {:induction false} ChainsUpToStep(g: Graph, p: string, n: nat)
    requires p in g
    ensures ChainsUpTo(g, p, n + 1) == 1 + AllChainsUpTo(g, g[p], n)
  {
    if n > 0 {
      ChainsUpToStep(g, p, n - 1);
    } else {
      assert ChainsUpTo(g, p, 1) == ChainsUpTo(g, p, 0) + Chains(g, p, 1);
    }
  }

  lemma {:induction false} AllChainsAdd(g: Graph, reqs: seq<string>, q: string, n: nat)
    ensures AllChainsUpTo(g, reqs + [q], n) == AllChainsUpTo(g, reqs, n) + if q in g then ChainsUpTo(g, q, n) else 0
  {
    if n > 0 {
      AllChainsAdd(g, reqs, q, n - 1);
      assert (reqs + [q])[..|reqs|] == reqs;
    }
  }

  lemma {:induction false} AllChainsOfNone(g: Graph, n: nat)
    ensures AllChainsUpTo(g, [], n) == 0
  {
    if n > 0 {
      AllChainsOfNone(g, n - 1);
    }
  }

  lemma {:induction false} AllChainsConcat(g: Graph, a: seq<string>, b: seq<string>, n: nat)
    ensures AllChainsUpTo(g, a + b, n) == AllChainsUpTo(g, a, n) + AllChainsUpTo(g, b, n)
    decreases |b|
  {
    if b == [] {
      assert a + b == a;
      AllChainsOfNone(g, n);
    } else {
      var front, last := b[..|b| - 1], b[|b| - 1];
      assert a + b == (a + front) + [last] && b == front + [last];
      AllChainsConcat(g, a, front, n);
      AllChainsAdd(g, a + front, last, n);
      AllChainsAdd(g, front, last, n);
    }
  }

  lemma {:induction false} WeightsAreChains(g: Graph, reqs: seq<string>, n: nat, cnt: nat)
    requires n <= |reqs| && cnt <= LIMIT + 1
    ensures Weights(g, reqs, n, cnt) == AllChainsUpTo(g, reqs[..n], LIMIT + 1 - cnt)
    decreases LIMIT + 1 - cnt, n + 1
  {
    if n == 0 {
      AllChainsOfNone(g, LIMIT + 1 - cnt);
    } else {
      WeightsAreChains(g, reqs, n - 1, cnt);
      if reqs[n - 1] in g {
        WeightIsChains(g, reqs[n - 1], cnt);
      }
      assert reqs[..n] == reqs[..n - 1] + [reqs[n - 1]];
      AllChainsAdd(g, reqs[..n - 1], reqs[n - 1], LIMIT + 1 - cnt);
    }
  }

  /** The weight is the number of chains that start at the package, up to the depth that is followed. */
  lemma {:induction false} WeightIsChains(g: Graph, p: string, cnt: nat)
    requires p in g && cnt <= LIMIT + 1
    ensures Weight(g, p, cnt) == ChainsUpTo(g, p, LIMIT + 1 - cnt)
    decreases LIMIT + 1 - cnt, 0
  {
    if cnt <= LIMIT {
      WeightsAreChains(g, g[p], |g[p]|, cnt + 1);
      assert g[p][..|g[p]|] == g[p];
      ChainsUpToStep(g, p, LIMIT - cnt);
    }
  }

  lemma {:induction false} SomeChain(g: Graph, reqs: seq<string>, n: nat)
    requires n > 0
    ensures ChainsFrom(g, reqs, n) > 0 <==> exists q :: q in g && q in reqs && Reaches(g, q, n)
    decreases n, |reqs| + 1
  {
    if reqs != [] {
      var front, last := reqs[..|reqs| - 1], reqs[|reqs| - 1];
      SomeChain(g, front, n);
      if last in g {
        ChainsReach(g, last, n);
      }
      assert forall q :: q in reqs <==> q in front || q == last;
    }
  }

  /** Some chain exists exactly when the count is positive. */
  lemma {:induction false} ChainsReach(g: Graph, p: string, n: nat)
    requires p in g && n > 0
    ensures Chains(g, p, n) > 0 <==> Reaches(g, p, n)
    decreases n, 0
  {
    if n == 1 {
      ReachesOne(g, p);
    } else {
      SomeChain(g, g[p], n - 1);
      ReachesStep(g, p, n - 1);
    }
  }

  /** The list without the first `q`. */
  function Others(reqs: seq<string>, q: string): seq<string> {
    if reqs == [] then [] else if reqs[0] == q then reqs[1..] else [reqs[0]] + Others(reqs[1..], q)
  }

  lemma {:induction false} AllChainsSplit(g: Graph, reqs: seq<string>, q: string, n: nat)
    requires q in reqs && q in g
    ensures AllChainsUpTo(g, reqs, n) == ChainsUpTo(g, q, n) + AllChainsUpTo(g, Others(reqs, q), n)
  {
    var head, tail := reqs[0], reqs[1..];
    assert reqs == [head] + tail && [head] == [] + [head];
    AllChainsConcat(g, [head], tail, n);
    AllChainsOfNone(g, n);
    AllChainsAdd(g, [], head, n);
    if head != q {
      AllChainsSplit(g, tail, q, n);
      AllChainsConcat(g, [head], Others(tail, q), n);
    }
  }

  lemma ChainsDiffer(g: Graph, p: string, q: string, n: nat)
    requires p in g && q in g && q in g[p]
    ensures ChainsUpTo(g, p, n + 1) + Chains(g, q, n + 1) ==
            ChainsUpTo(g, q, n + 1) + 1 + AllChainsUpTo(g, Others(g[p], q), n)
  {
    ChainsUpToStep(g, p, n);
    AllChainsSplit(g, g[p], q, n);
  }

  /**
   Exactly when a package outweighs what it requires, on every graph: the chains of the greatest length
   (ten at level 1) that start at the requirement, which the package itself no longer counts, must not
   outnumber the shorter chains that start at its other requirements.
   */
  lemma OutweighsExactly(g: Graph, p: string, q: string, cnt: nat)
    requires p in g && q in g && q in g[p] && 0 < cnt <= LIMIT
    ensures Weight(g, p, cnt) > Weight(g, q, cnt) <==>
            Chains(g, q, LIMIT + 1 - cnt) <= AllChainsUpTo(g, Others(g[p], q), LIMIT - cnt)
    ensures Weight(g, p, cnt) == Weight(g, q, cnt) <==>
            Chains(g, q, LIMIT + 1 - cnt) == 1 + AllChainsUpTo(g, Others(g[p], q), LIMIT - cnt)
  {
    WeightIsChains(g, p, cnt);
    WeightIsChains(g, q, cnt);
    ChainsDiffer(g, p, q, LIMIT - cnt);
  }

  // ---------------------------------------------------------------- the sort, and the exact order

  function Priority(w: map<string, nat>, p: string): nat {
    if p in w then w[p] else 0
  }

  /** In front of the first one that is not heavier. */
  function Insert(w: map<string, nat>, p: string, s: seq<string>): seq<string> {
    if s == [] || Priority(w, p) >= Priority(w, s[0]) then [p] + s else [s[0]] + Insert(w, p, s[1..])
  }

  /** sorted(names, key=priority, reverse=True), which keeps the order of names with the same priority. */
  function Sorted(w: map<string, nat>, names: seq<string>): seq<string> {
    if names == [] then [] else Insert(w, names[0], Sorted(w, names[1..]))
  }

  ghost predicate Descends(w: map<string, nat>, s: seq<string>) {
    forall i, j | 0 <= i < j < |s| :: Priority(w, s[i]) >= Priority(w, s[j])
  }

  /** Insertion splits a sorted list into the heavier ones and the others. */
  lemma {:induction false} InsertSplits(w: map<string, nat>, p: string, s: seq<string>)
    returns (front: seq<string>, back: seq<string>)
    requires Descends(w, s)
    ensures s == front + back && Insert(w, p, s) == front + ([p] + back)
    ensures (forall x | x in front :: Priority(w, x) > Priority(w, p))
    ensures (forall x | x in back :: Priority(w, x) <= Priority(w, p))
  {
    if s == [] || Priority(w, p) >= Priority(w, s[0]) {
      front, back := [], s;
    } else {
      var rest;
      rest, back := InsertSplits(w, p, s[1..]);
      front := [s[0]] + rest;
      assert s == [s[0]] + s[1..];
    }
  }

  lemma JoinDescends(w: map<string, nat>, front: seq<string>, p: string, back: seq<string>)
    requires Descends(w, front + back)
    requires (forall x | x in front :: Priority(w, x) > Priority(w, p))
    requires (forall x | x in back :: Priority(w, x) <= Priority(w, p))
    ensures Descends(w, front + ([p] + back))
  {
    var s, t := front + back, front + ([p] + back);
    forall i, j | 0 <= i < j < |t| ensures Priority(w, t[i]) >= Priority(w, t[j]) {
      assert i < |front| ==> t[i] == s[i] && t[i] in front;
      assert i > |front| ==> t[i] == s[i - 1] && t[i] in back;
      assert j < |front| ==> t[j] == s[j];
      assert j > |front| ==> t[j] == s[j - 1] && t[j] in back;
    }
  }

  /** A permutation by descending priority. */
  lemma {:induction false} SortedIsSorted(w: map<string, nat>, names: seq<string>)
    ensures multiset(Sorted(w, names)) == multiset(names) && Descends(w, Sorted(w, names))
  {
    if names != [] {
      SortedIsSorted(w, names[1..]);
      var front, back := InsertSplits(w, names[0], Sorted(w, names[1..]));
      JoinDescends(w, front, names[0], back);
      assert names == [names[0]] + names[1..];
    }
  }

  /** Every `p` stands before every `q`. */
  ghost predicate Before(s: seq<string>, p: string, q: string) {
    forall i, j | 0 <= i < |s| && 0 <= j < |s| && s[i] == p && s[j] == q :: i < j
  }

  lemma BeforeConcat(a: seq<string>, b: seq<string>, p: string, q: string)
    requires p != q
    ensures Before(a + b, p, q) <==> Before(a, p, q) && Before(b, p, q) && !(q in a && p in b)
  {
    var s := a + b;
    if q in a && p in b {
      var j :| 0 <= j < |a| && a[j] == q;
      var i :| 0 <= i < |b| && b[i] == p;
      assert s[j] == q && s[|a| + i] == p;
      assert !Before(s, p, q);
    } else if Before(s, p, q) {
      forall i, j | 0 <= i < |b| && 0 <= j < |b| && b[i] == p && b[j] == q ensures i < j {
        assert s[|a| + i] == p && s[|a| + j] == q;
      }
      forall i, j | 0 <= i < |a| && 0 <= j < |a| && a[i] == p && a[j] == q ensures i < j {
        assert s[i] == p && s[j] == q;
      }
    }
  }

  lemma InsertIsStable(w: map<string, nat>, x: string, s: seq<string>, p: string, q: string)
    requires Descends(w, s) && p != q && Priority(w, p) == Priority(w, q)
    ensures Before(Insert(w, x, s), p, q) <==> Before([x] + s, p, q)
  {
    var front, back := InsertSplits(w, x, s);
    BeforeConcat(front, [x] + back, p, q);
    BeforeConcat([x], back, p, q);
    BeforeConcat([x], s, p, q);
    BeforeConcat(front, back, p, q);
  }

  /** Packages of the same weight keep the order of the command line. */
  lemma {:induction false} SortIsStable(w: map<string, nat>, names: seq<string>, p: string, q: string)
    requires p != q && Priority(w, p) == Priority(w, q)
    ensures Before(Sorted(w, names), p, q) <==> Before(names, p, q)
  {
    if names != [] {
      var x, rest := names[0], names[1..];
      SortedIsSorted(w, rest);
      SortIsStable(w, rest, p, q);
      InsertIsStable(w, x, Sorted(w, rest), p, q);
      BeforeConcat([x], rest, p, q);
      BeforeConcat([x], Sorted(w, rest), p, q);
      SameMembers(Sorted(w, rest), rest);
      assert names == [x] + rest;
    }
  }

  lemma SameMembers(s: seq<string>, t: seq<string>)
    requires multiset(s) == multiset(t)
    ensures forall x :: x in s <==> x in t
  {
    forall x ensures x in s <==> x in t {
      assert x in s <==> x in multiset(s);
      assert x in t <==> x in multiset(t);
    }
  }

  lemma NotBeforeItself(s: seq<string>, p: string)
    requires p in s
    ensures !Before(s, p, p)
  {
    var i :| 0 <= i < |s| && s[i] == p;
  }

  lemma HeavierStandsFirst(w: map<string, nat>, s: seq<string>, p: string, q: string)
    requires Descends(w, s) && p in s && q in s && Priority(w, p) > Priority(w, q)
    ensures Before(s, p, q) && !Before(s, q, p)
  {
    var i :| 0 <= i < |s| && s[i] == p;
    var j :| 0 <= j < |s| && s[j] == q;
    assert i < j;
  }

  /** The heavier package stands first; among equals the command line decides. */
  lemma SortedOrder(w: map<string, nat>, names: seq<string>, p: string, q: string)
    requires p in names && q in names
    ensures Before(Sorted(w, names), p, q) <==>
            Priority(w, p) > Priority(w, q) || (Priority(w, p) == Priority(w, q) && Before(names, p, q))
  {
    var s := Sorted(w, names);
    SortedIsSorted(w, names);
    SameMembers(s, names);
    if p == q {
      NotBeforeItself(names, p);
      NotBeforeItself(s, p);
    } else if Priority(w, p) == Priority(w, q) {
      SortIsStable(w, names, p, q);
    } else if Priority(w, p) > Priority(w, q) {
      HeavierStandsFirst(w, s, p, q);
    } else {
      HeavierStandsFirst(w, s, q, p);
    }
  }

  lemma TiesKeepTheirOrder(w: map<string, nat>, names: seq<string>, p: string, q: string)
    requires p in names && q in names && Priority(w, p) == Priority(w, q)
    ensures Before(Sorted(w, names), p, q) <==> Before(names, p, q)
    ensures Before(Sorted(w, names), q, p) <==> Before(names, q, p)
  {
    SortedOrder(w, names, p, q);
    SortedOrder(w, names, q, p);
  }

  lemma SortedIsAllowed(w: map<string, nat>, names: seq<string>)
    requires forall p | p in names :: p in w
    ensures SortedByPriority(names, Sorted(w, names), w)
  {
    SortedIsSorted(w, names);
    SameMembers(Sorted(w, names), names);
  }

  lemma {:induction false} OthersAndOne(s: seq<string>, q: string)
    requires q in s
    ensures multiset(s) == multiset([q] + Others(s, q))
  {
    assert s == [s[0]] + s[1..];
    if s[0] != q {
      OthersAndOne(s[1..], q);
    }
  }

  /** A package that is not heavier can be sorted behind. */
  lemma NotHeavierMayFollow(w: map<string, nat>, names: seq<string>, p: string, q: string)
    returns (sorted: seq<string>)
    requires p in names && q in names && Priority(w, p) <= Priority(w, q) && forall x | x in names :: x in w
    ensures SortedByPriority(names, sorted, w) && !Before(sorted, p, q)
  {
    var rest := Others(names, q);
    var turned := [q] + rest;
    OthersAndOne(names, q);
    SameMembers(names, turned);
    sorted := Sorted(w, turned);
    SortedIsAllowed(w, turned);
    SortedOrder(w, turned, p, q);
    if p == q {
      NotBeforeItself(turned, p);
    } else {
      BeforeConcat([q], rest, p, q);
    }
  }

  /** The priorities of the main block. */
  ghost predicate Weighed(g: Graph, w: map<string, nat>) {
    w.Keys == g.Keys && forall p | p in g :: w[p] == Weight(g, p, 1)
  }

  /** What decides the place of a package and its requirement, before anything is weighed or sorted. */
  ghost predicate InOrder(g: Graph, names: seq<string>, p: string, q: string)
    requires p in g && q in g
  {
    var lost, gained := Chains(g, q, LIMIT), AllChainsUpTo(g, Others(g[p], q), LIMIT - 1);
    lost <= gained || (lost == gained + 1 && Before(names, p, q))
  }

  /** Exactly when a package is put before one that it requires, on every graph and every command line. */
  lemma RequirementFollowsExactly(g: Graph, names: seq<string>, w: map<string, nat>, p: string, q: string)
    requires Weighed(g, w) && p in names && q in names && p in g && q in g && q in g[p]
    ensures Before(Sorted(w, names), p, q) <==> InOrder(g, names, p, q)
  {
    SortedOrder(w, names, p, q);
    OutweighsExactly(g, p, q, 1);
  }

  /** Exactly when every permutation by descending priority does, so that the command line does not matter. */
  lemma RequirementAlwaysFollowsExactly(g: Graph, names: seq<string>, w: map<string, nat>, p: string, q: string)
    requires Weighed(g, w) && (forall x | x in names :: x in g)
    requires p in names && q in names && q in g[p]
    ensures (forall sorted | SortedByPriority(names, sorted, w) :: Before(sorted, p, q)) <==>
            Chains(g, q, LIMIT) <= AllChainsUpTo(g, Others(g[p], q), LIMIT - 1)
  {
    OutweighsExactly(g, p, q, 1);
    if w[p] > w[q] {
      forall sorted | SortedByPriority(names, sorted, w) ensures Before(sorted, p, q) {
        SameMembers(names, sorted);
        HeavierStandsFirst(w, sorted, p, q);
      }
    } else {
      var sorted := NotHeavierMayFollow(w, names, p, q);
    }
  }

  ghost predicate Edge(g: Graph, p: string, q: string) {
    p in g && q in g && q in g[p]
  }

  /** The order is topological exactly if the condition holds for every requirement. */
  lemma TopologicalExactly(g: Graph, names: seq<string>, w: map<string, nat>)
    requires Weighed(g, w) && forall p :: p in names <==> p in g
    ensures (forall p, q | Edge(g, p, q) :: Before(Sorted(w, names), p, q)) <==>
            (forall p, q | Edge(g, p, q) :: InOrder(g, names, p, q))
  {
    forall p, q | Edge(g, p, q) ensures Before(Sorted(w, names), p, q) <==> InOrder(g, names, p, q) {
      RequirementFollowsExactly(g, names, w, p, q);
    }
  }

  // ---------------------------------------------------------------- where the order fails

  /** Every package requires at most one other. */
  ghost predicate Linear(g: Graph) {
    forall p | p in g :: |g[p]| <= 1
  }

  /** Then the weight is the length of the chain, as far as it is followed. */
  lemma {:induction false} LinearWeight(g: Graph, p: string, cnt: nat, n: nat)
    requires Linear(g) && p in g && 0 < n && cnt + n <= LIMIT + 1
    ensures Weight(g, p, cnt) >= n <==> Reaches(g, p, n)
    decreases n
  {
    if n == 1 {
      ReachesOne(g, p);
    } else {
      ReachesStep(g, p, n - 1);
      if g[p] != [] && g[p][0] in g {
        var q := g[p][0];
        LinearWeight(g, q, cnt + 1, n - 1);
        assert Weights(g, g[p], 0, cnt + 1) == 0;
        assert Weights(g, g[p], 1, cnt + 1) == Weight(g, q, cnt + 1);
      } else {
        assert Weights(g, g[p], |g[p]|, cnt + 1) == 0;
      }
    }
  }

  lemma {:induction false} LinearWeightIsBounded(g: Graph, p: string, cnt: nat)
    requires Linear(g) && p in g && cnt <= LIMIT + 1
    ensures Weight(g, p, cnt) <= LIMIT + 1 - cnt
    decreases LIMIT + 1 - cnt
  {
    if cnt <= LIMIT && g[p] != [] {
      assert Weights(g, g[p], 0, cnt + 1) == 0;
      if g[p][0] in g {
        LinearWeightIsBounded(g, g[p][0], cnt + 1);
      }
    }
  }

  /** In such graphs a package outweighs what it requires exactly if no chain of eleven packages starts at it. */
  lemma LinearIsExact(g: Graph, p: string, q: string)
    requires Linear(g) && p in g && q in g && q in g[p]
    ensures Weight(g, p, 1) > Weight(g, q, 1) <==> Short(g, p)
  {
    if Short(g, p) {
      HeavierThanRequirement(g, p, q);
    } else {
      ReachesStep(g, p, LIMIT);
      assert g[p] == [q];
      LinearWeight(g, q, 1, LIMIT);
      LinearWeightIsBounded(g, p, 1);
    }
  }

  /** Packages named x, xx, xxx, ..., each of which requires the one before. */
  function Name(i: nat): (s: string)
    ensures |s| == i + 1
  {
    if i == 0 then "x" else Name(i - 1) + "x"
  }

  function Row(n: nat): Graph {
    if n == 0 then map[Name(0) := []] else Row(n - 1)[Name(n) := [Name(n - 1)]]
  }

  lemma {:induction false} RowIs(n: nat, i: nat)
    requires i <= n
    ensures Name(i) in Row(n) && Row(n)[Name(i)] == if i == 0 then [] else [Name(i - 1)]
  {
    if i < n {
      RowIs(n - 1, i);
      assert |Name(i)| != |Name(n)|;
    }
  }

  lemma {:induction false} RowIsLinear(n: nat)
    ensures Linear(Row(n))
  {
    if n > 0 {
      RowIsLinear(n - 1);
    }
  }

  /** The longest chain from package `i` has `i + 1` packages. */
  lemma {:induction false} LongestChain(n: nat, i: nat, k: nat)
    requires i <= n && k > 0 && Name(i) in Row(n)
    ensures Reaches(Row(n), Name(i), k) <==> k <= i + 1
    decreases k
  {
    RowIs(n, i);
    if k == 1 {
      ReachesOne(Row(n), Name(i));
    } else {
      ReachesStep(Row(n), Name(i), k - 1);
      if i > 0 {
        RowIs(n, i - 1);
        LongestChain(n, i - 1, k - 1);
      }
    }
  }

  /** The command line that names the row from its end. */
  function Upwards(n: nat): seq<string> {
    if n == 0 then [Name(0)] else Upwards(n - 1) + [Name(n)]
  }

  lemma {:induction false} UpwardsNamesRow(n: nat)
    ensures forall p :: p in Upwards(n) <==> p in Row(n)
    ensures forall p | p in Upwards(n) :: |p| <= n + 1
    ensures Name(n) in Upwards(n)
  {
    if n > 0 {
      UpwardsNamesRow(n - 1);
    }
  }

  /** The two packages that start the longest chains of a long row weigh the same. */
  lemma LongRowWeighsTheSame(n: nat)
    requires n >= LIMIT
    ensures Edge(Row(n), Name(n), Name(n - 1))
    ensures Weight(Row(n), Name(n), 1) == Weight(Row(n), Name(n - 1), 1) == LIMIT
  {
    var g := Row(n);
    RowIs(n, n);
    RowIs(n, n - 1);
    RowIsLinear(n);
    LongestChain(n, n, LIMIT);
    LongestChain(n, n - 1, LIMIT);
    LinearWeight(g, Name(n), 1, LIMIT);
    LinearWeight(g, Name(n - 1), 1, LIMIT);
    LinearWeightIsBounded(g, Name(n), 1);
    LinearWeightIsBounded(g, Name(n - 1), 1);
  }

  lemma NamedUpwards(n: nat)
    requires n > 0
    ensures Before(Upwards(n), Name(n - 1), Name(n)) && !Before(Upwards(n), Name(n), Name(n - 1))
  {
    UpwardsNamesRow(n - 1);
    BeforeConcat(Upwards(n - 1), [Name(n)], Name(n - 1), Name(n));
    BeforeConcat(Upwards(n - 1), [Name(n)], Name(n), Name(n - 1));
  }

  /**
   Eleven packages in a row (`n` is 10) or more, named from the end of the row: the sort puts a package
   before the one that requires it, so the order is not topological.
   */
  lemma ElevenInARow(n: nat) returns (names: seq<string>, w: map<string, nat>, sorted: seq<string>)
    requires n >= LIMIT
    ensures Weighed(Row(n), w) && forall p :: p in names <==> p in Row(n)
    ensures sorted == Sorted(w, names) && SortedByPriority(names, sorted, w)
    ensures Edge(Row(n), Name(n), Name(n - 1)) && w[Name(n)] == w[Name(n - 1)] == LIMIT
    ensures Before(sorted, Name(n - 1), Name(n)) && !Before(sorted, Name(n), Name(n - 1))
  {
    var g := Row(n);
    names, w := Upwards(n), map p | p in g :: Weight(g, p, 1);
    sorted := Sorted(w, names);
    LongRowWeighsTheSame(n);
    UpwardsNamesRow(n);
    NamedUpwards(n);
    TiesKeepTheirOrder(w, names, Name(n - 1), Name(n));
    SortedIsAllowed(w, names);
  }
}
