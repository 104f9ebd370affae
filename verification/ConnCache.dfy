/**
 The connection cache (conncache.c, bundles.c): connections are kept in bundles, one for each host
 name, with back pointers, a count in every bundle and a count in the cache.
 */
module ConnCache {
  import opened Basics

  datatype Code = OK | OutOfMemory

  /** struct connectdata: `host` is the proxy name for a proxied connection, else the host name. */
  class Conn {
    const host: string
    var bundle: Bundle?
    var id: int

    constructor (host: string)
      ensures this.host == host && bundle == null
    {
      this.host := host;
      bundle, id := null, 0;
    }
  }

  // ---------------------------------------------------------------- lists without duplicates

  ghost predicate NoDup<T>(s: seq<T>) {
    forall i, j | 0 <= i < j < |s| :: s[i] != s[j]
  }

  /** The list without the first `x`. */
  function Without<T(==)>(s: seq<T>, x: T): (r: seq<T>)
    ensures x !in s ==> r == s
  {
    if s == [] then [] else if s[0] == x then s[1..] else [s[0]] + Without(s[1..], x)
  }

  lemma {:induction false} WithoutKeepsOthers<T>(s: seq<T>, x: T)
    requires NoDup(s) && x in s
    ensures |Without(s, x)| == |s| - 1 && NoDup(Without(s, x)) && x !in Without(s, x)
    ensures forall y | y in Without(s, x) :: y in s
    ensures forall y | y in s && y != x :: y in Without(s, x)
  {
    if s[0] != x {
      var t := s[1..];
      WithoutKeepsOthers(t, x);
      var r := Without(t, x);
      forall y ensures y in s <==> y == s[0] || y in t {
      }
      forall j | 0 <= j < |t| ensures t[j] != s[0] {
        assert t[j] == s[j + 1];
      }
      assert s[0] !in r;
    } else {
      forall y ensures y in s <==> y == s[0] || y in s[1..] {
      }
    }
  }

  lemma {:induction false} WithoutAt<T>(s: seq<T>, x: T, k: nat)
    requires k < |s| && s[k] == x && x !in s[..k]
    ensures Without(s, x) == s[..k] + s[k + 1..]
  {
    if k > 0 {
      assert s[0] == s[..k][0] && s[1..][..k - 1] == s[..k][1..];
      WithoutAt(s[1..], x, k - 1);
    }
  }

  lemma AppendNoDup<T>(s: seq<T>, x: T)
    requires NoDup(s) && x !in s
    ensures NoDup(s + [x]) && x in s + [x] && forall y :: y in s + [x] <==> y in s || y == x
  {
    assert (s + [x])[|s|] == x;
  }

  lemma InsertNoDup<T>(s: seq<T>, i: nat, x: T)
    requires NoDup(s) && x !in s && i <= |s|
    ensures var r := s[..i] + [x] + s[i..];
            NoDup(r) && Without(r, x) == s && forall y :: y in r <==> y in s || y == x
  {
    var r := s[..i] + [x] + s[i..];
    assert r[..i] == s[..i] && r[i] == x && r[i + 1..] == s[i..];
    WithoutAt(r, x, i);
    forall j, k | 0 <= j < k < |r| ensures r[j] != r[k] {
      assert r[j] == if j < i then s[j] else if j == i then x else s[j - 1];
      assert r[k] == if k < i then s[k] else if k == i then x else s[k - 1];
    }
  }

  /** The element after `x`. */
  function After<T(==)>(s: seq<T>, x: T): Option<T> {
    if s == [] then None
    else if s[0] != x then After(s[1..], x)
    else if |s| == 1 then None else Some(s[1])
  }

  ghost predicate EndsWith<T>(s: seq<T>, t: seq<T>) {
    |t| <= |s| && s[|s| - |t|..] == t
  }

  function First<T>(s: seq<T>): Option<T> {
    if s == [] then None else Some(s[0])
  }

  lemma {:induction false} AfterAt<T>(s: seq<T>, at: nat)
    requires NoDup(s) && at < |s|
    ensures After(s, s[at]) == First(s[at + 1..])
  {
    if at > 0 {
      assert s[1..][at - 1] == s[at] && s[1..][at..] == s[at + 1..];
      AfterAt(s[1..], at - 1);
    }
  }

  /** Taking the next element before the current one may be removed. */
  lemma Advance<T>(s: seq<T>, rest: seq<T>)
    requires NoDup(s) && EndsWith(s, rest) && rest != []
    ensures var x := rest[0];
            && x in s && After(s, x) == First(rest[1..])
            && EndsWith(s, rest[1..]) && EndsWith(Without(s, x), rest[1..])
  {
    var at := |s| - |rest|;
    assert s[at] == s[at..][0] && s[at + 1..] == s[at..][1..];
    AfterAt(s, at);
    WithoutAt(s, rest[0], at);
  }

  ghost predicate Split<T>(all: seq<T>, front: seq<T>, back: seq<T>) {
    |front| <= |all| && all[..|front|] == front && all[|front|..] == back
  }

  lemma SplitNext<T>(all: seq<T>, front: seq<T>, back: seq<T>)
    requires Split(all, front, back)
    ensures back != [] ==> Split(all, front + [back[0]], back[1..]) && |front| < |all|
  {
  }

  // ---------------------------------------------------------------- bundles

  /** struct connectbundle. */
  class Bundle {
    var conns: seq<Conn>
    var num: int
    ghost const key: string   // the name it is stored under

    /** Curl_bundle_create, once the allocations have succeeded. */
    constructor (ghost key: string)
      ensures conns == [] && num == 0 && this.key == key
    {
      conns, num, this.key := [], 0, key;
    }

    /** Curl_bundle_add_conn. */
    method AddConn(conn: Conn, allocOk: bool) returns (result: Code)
      modifies this, conn`bundle
      ensures result == if allocOk then OK else OutOfMemory
      ensures allocOk ==> conns == old(conns) + [conn] && num == old(num) + 1 && conn.bundle == this
      ensures !allocOk ==> unchanged(this) && unchanged(conn)
    {
      if !allocOk {
        return OutOfMemory;
      }
      conns := conns + [conn];
      conn.bundle := this;
      num := num + 1;
      return OK;
    }

    /** Curl_bundle_remove_conn: the list's destructor clears the back pointer. */
    method RemoveConn(conn: Conn) returns (removed: bool)
      modifies this, conn`bundle
      ensures removed == (conn in old(conns))
      ensures conns == Without(old(conns), conn)
      ensures removed ==> num == old(num) - 1 && conn.bundle == null
      ensures !removed ==> unchanged(this) && unchanged(conn)
    {
      var curr := 0;
      while curr < |conns|
        invariant 0 <= curr <= |conns| && conn !in conns[..curr]
        invariant unchanged(this) && unchanged(conn)
      {
        if conns[curr] == conn {
          WithoutAt(conns, conn, curr);
          conns := conns[..curr] + conns[curr + 1..];
          conn.bundle := null;
          num := num - 1;
          return true;
        }
        curr := curr + 1;
      }
      assert conns[..curr] == conns;
      return false;
    }
  }

  // ---------------------------------------------------------------- the books of the cache

  /** A hash element: the key and the bundle. */
  datatype Entry = Entry(key: string, bundle: Bundle)

  /** Every bundle once, under its own key, and no key twice. */
  ghost predicate HashOk(hash: seq<Entry>, bundles: set<Bundle>) {
    && NoDup(hash)
    && (forall e | e in hash :: e.bundle in bundles && e.bundle.key == e.key)
    && (forall b | b in bundles :: Entry(b.key, b) in hash)
    && (forall b, c | b in bundles && c in bundles && b != c :: b.key != c.key)
  }

  ghost predicate Absent(hash: seq<Entry>, key: string) {
    forall e | e in hash :: e.key != key
  }

  lemma HashDrop(hash: seq<Entry>, bundles: set<Bundle>, b: Bundle)
    requires HashOk(hash, bundles) && b in bundles
    ensures HashOk(Without(hash, Entry(b.key, b)), bundles - {b})
  {
    WithoutKeepsOthers(hash, Entry(b.key, b));
    forall e | e in Without(hash, Entry(b.key, b)) ensures e.bundle != b {
      assert e in hash;
    }
  }

  lemma HashInsert(hash: seq<Entry>, bundles: set<Bundle>, i: nat, b: Bundle)
    requires HashOk(hash, bundles) && i <= |hash| && b !in bundles && Absent(hash, b.key)
    ensures var more := hash[..i] + [Entry(b.key, b)] + hash[i..];
            HashOk(more, bundles + {b}) && Without(more, Entry(b.key, b)) == hash
  {
    InsertNoDup(hash, i, Entry(b.key, b));
    forall c | c in bundles ensures c.key != b.key {
      assert Entry(c.key, c) in hash;
    }
  }

  /** The connections of every host, in the order they were added. */
  type Index = map<string, seq<Conn>>

  /** No list is empty or holds a connection twice. */
  ghost predicate ListsOk(lists: Index) {
    forall k | k in lists :: lists[k] != [] && NoDup(lists[k])
  }

  /** The members are the connections on the list of their own host. */
  ghost predicate Located(lists: Index, members: set<Conn>) {
    && (forall k, c | k in lists && c in lists[k] :: c in members && c.host == k)
    && (forall c | c in members :: c.host in lists && c in lists[c.host])
  }

  ghost predicate IndexOk(lists: Index, members: set<Conn>) {
    ListsOk(lists) && Located(lists, members)
  }

  function Listed(lists: Index, key: string): seq<Conn> {
    if key in lists then lists[key] else []
  }

  /** One more connection, at the end of its host's list. */
  function WithConn(lists: Index, conn: Conn): Index {
    lists[conn.host := Listed(lists, conn.host) + [conn]]
  }

  /** One connection less; a host without connections is dropped. */
  function WithoutConn(lists: Index, conn: Conn): Index {
    var rest := Without(Listed(lists, conn.host), conn);
    if rest == [] then lists - {conn.host} else lists[conn.host := rest]
  }

  lemma IndexAdd(lists: Index, members: set<Conn>, conn: Conn)
    requires IndexOk(lists, members) && conn !in members
    ensures IndexOk(WithConn(lists, conn), members + {conn})
  {
    AppendNoDup(Listed(lists, conn.host), conn);
  }

  lemma IndexDrop(lists: Index, members: set<Conn>, conn: Conn)
    requires IndexOk(lists, members) && conn in members
    ensures IndexOk(WithoutConn(lists, conn), members - {conn})
  {
    var list := lists[conn.host];
    WithoutKeepsOthers(list, conn);
    var less := WithoutConn(lists, conn);
    forall k, c | k in less && c in less[k] ensures c in members && c != conn && c.host == k {
      assert c in lists[k];
    }
    forall c | c in members && c != conn ensures Member(less, c) {
      assert c in lists[c.host];
    }
  }

  ghost predicate Member(lists: Index, c: Conn) {
    c.host in lists && c in lists[c.host]
  }

  /** All connections, in iteration order. */
  ghost function Flatten(hash: seq<Entry>, lists: Index): seq<Conn> {
    if hash == [] then [] else Listed(lists, hash[0].key) + Flatten(hash[1..], lists)
  }

  lemma {:induction false} FlattenFrame(hash: seq<Entry>, lists: Index, lists': Index)
    requires forall e | e in hash :: Listed(lists, e.key) == Listed(lists', e.key)
    ensures Flatten(hash, lists) == Flatten(hash, lists')
  {
    if hash != [] {
      FlattenFrame(hash[1..], lists, lists');
    }
  }

  lemma {:induction false} NoDupSize<T>(s: seq<T>)
    requires NoDup(s)
    ensures |set x | x in s| == |s|
  {
    if s != [] {
      NoDupSize(s[1..]);
      assert (set x | x in s) == (set x | x in s[1..]) + {s[0]};
    }
  }

  lemma HeadRemoved(hash: seq<Entry>, lists: Index, conn: Conn)
    requires hash != [] && conn.host == hash[0].key && (forall e | e in hash[1..] :: e.key != conn.host)
    requires conn.host in lists && lists[conn.host] != [] && lists[conn.host][0] == conn
    ensures var hash' := if Without(lists[conn.host], conn) == [] then Without(hash, hash[0]) else hash;
            && Flatten(hash, lists) != [] && Flatten(hash, lists)[0] == conn
            && Flatten(hash, lists)[1..] == Flatten(hash', WithoutConn(lists, conn))
  {
    var list, lists' := lists[conn.host], WithoutConn(lists, conn);
    FlattenFrame(hash[1..], lists, lists');
    TailOfConcat(list, Flatten(hash[1..], lists));
    assert Without(list, conn) == list[1..] == Listed(lists', conn.host);
    assert Without(hash, hash[0]) == hash[1..];
    if list[1..] == [] {
      assert [] + Flatten(hash[1..], lists) == Flatten(hash[1..], lists);
    }
  }

  lemma TailOfConcat<T>(s: seq<T>, t: seq<T>)
    requires s != []
    ensures s + t != [] && (s + t)[0] == s[0] && (s + t)[1..] == s[1..] + t
  {
  }

  ghost predicate KeysOnce(hash: seq<Entry>) {
    forall i, j | 0 <= i < j < |hash| :: hash[i].key != hash[j].key
  }

  /** Every host with connections has a bundle. */
  ghost predicate Covers(hash: seq<Entry>, lists: Index) {
    forall k | k in lists :: exists e :: e in hash && e.key == k
  }

  lemma CoversTail(hash: seq<Entry>, lists: Index)
    requires hash != [] && Covers(hash, lists)
    ensures Covers(hash[1..], lists - {hash[0].key})
  {
    forall k | k in lists - {hash[0].key} ensures exists e :: e in hash[1..] && e.key == k {
      var e :| e in hash && e.key == k;
      assert e in hash[1..];
    }
  }

  lemma LocatedWithoutHost(lists: Index, members: set<Conn>, key: string)
    requires Located(lists, members)
    ensures Located(lists - {key}, members - set c | c in Listed(lists, key))
    ensures (set c | c in Listed(lists, key)) <= members
  {
    var less := lists - {key};
    forall k, c | k in less && c in less[k] ensures c in members && c !in Listed(lists, key) && c.host == k {
      assert c in lists[k];
    }
    forall c | c in members && c !in Listed(lists, key) ensures c.host in less && c in less[c.host] {
      assert c in lists[c.host];
    }
  }

  lemma IndexWithoutHost(lists: Index, members: set<Conn>, key: string)
    requires IndexOk(lists, members)
    ensures IndexOk(lists - {key}, members - set c | c in Listed(lists, key))
    ensures |members - set c | c in Listed(lists, key)| == |members| - |Listed(lists, key)|
  {
    LocatedWithoutHost(lists, members, key);
    NoDupSize(Listed(lists, key));
  }

  lemma FlattenTail(hash: seq<Entry>, lists: Index)
    requires hash != [] && KeysOnce(hash)
    ensures Flatten(hash[1..], lists - {hash[0].key}) == Flatten(hash[1..], lists) && KeysOnce(hash[1..])
  {
    FlattenFrame(hash[1..], lists - {hash[0].key}, lists);
  }

  /** The lists of the hash hold the members, each once. */
  lemma {:induction false} FlattenSize(hash: seq<Entry>, lists: Index, members: set<Conn>)
    requires IndexOk(lists, members) && KeysOnce(hash) && Covers(hash, lists)
    ensures |Flatten(hash, lists)| == |members|
  {
    if hash == [] {
      assert members == {};
    } else {
      var key := hash[0].key;
      CoversTail(hash, lists);
      FlattenTail(hash, lists);
      IndexWithoutHost(lists, members, key);
      FlattenSize(hash[1..], lists - {key}, members - set c | c in Listed(lists, key));
    }
  }

  lemma {:induction false} FlattenMember(hash: seq<Entry>, lists: Index, members: set<Conn>, c: Conn)
    requires Located(lists, members)
    ensures c in Flatten(hash, lists) <==> c in members && exists e :: e in hash && e.key == c.host
  {
    if hash != [] {
      FlattenMember(hash[1..], lists, members, c);
      assert c in Listed(lists, hash[0].key) <==> c in members && c.host == hash[0].key;
      forall e | e in hash[1..] ensures e in hash {
      }
      if e :| e in hash && e.key == c.host && e != hash[0] {
        assert e in hash[1..];
      }
    }
  }

  lemma AppendTwo<T>(s: seq<T>, t: seq<T>)
    requires NoDup(s) && NoDup(t) && forall x | x in s :: x !in t
    ensures NoDup(s + t)
  {
    forall i, j | 0 <= i < j < |s + t| ensures (s + t)[i] != (s + t)[j] {
      assert i < |s| ==> (s + t)[i] in s;
      assert j >= |s| ==> (s + t)[j] in t && (s + t)[j] == t[j - |s|];
      assert i >= |s| ==> (s + t)[i] == t[i - |s|];
    }
  }

  /** No connection is listed twice. */
  lemma {:induction false} FlattenNoDup(hash: seq<Entry>, lists: Index, members: set<Conn>)
    requires IndexOk(lists, members) && KeysOnce(hash)
    ensures NoDup(Flatten(hash, lists))
  {
    if hash != [] {
      var list, rest := Listed(lists, hash[0].key), Flatten(hash[1..], lists);
      FlattenNoDup(hash[1..], lists, members);
      forall c | c in list ensures c !in rest {
        FlattenMember(hash[1..], lists, members, c);
      }
      AppendTwo(list, rest);
    }
  }

  /** The bundle counts, added up. */
  ghost function SumOfCounts(hash: seq<Entry>): int
    reads set e | e in hash :: e.bundle
  {
    if hash == [] then 0 else hash[0].bundle.num + SumOfCounts(hash[1..])
  }

  lemma {:induction false} SumIsFlattened(hash: seq<Entry>, lists: Index)
    requires forall e | e in hash :: e.bundle.num == |Listed(lists, e.key)|
    ensures SumOfCounts(hash) == |Flatten(hash, lists)|
  {
    if hash != [] {
      SumIsFlattened(hash[1..], lists);
    }
  }

  /** What the environment decides while adding: the three allocations, and where a hash element lands. */
  datatype Io = Io(createOk: bool, hashOk: bool, listOk: bool, at: nat)

  /** The allocations that the addition needs succeed. */
  predicate Adds(lists: Index, conn: Conn, io: Io) {
    io.listOk && (conn.host in lists || (io.createOk && io.hashOk))
  }

  /** A call from outside, with what the environment decides during it. */
  datatype Op =
    | Add(conn: Conn, io: Io)
    | Remove(conn: Conn)
    | Visit(removes: set<Conn>, stops: set<Conn>)
    | Close

  /** The calls are about connections of the pool. */
  ghost predicate Within(ops: seq<Op>, pool: set<Conn>) {
    forall op | op in ops && (op.Add? || op.Remove?) :: op.conn in pool
  }

  ghost predicate NoVisits(ops: seq<Op>) {
    forall op | op in ops :: !op.Visit?
  }

  /** What a call does to the connections of the hosts: an add that fails, or comes too late, does nothing. */
  ghost function Step(lists: Index, op: Op): Index
    requires !op.Visit?
  {
    match op
    case Add(conn, io) =>
      if !Member(lists, conn) && Adds(lists, conn, io) then WithConn(lists, conn) else lists
    case Remove(conn) => if Member(lists, conn) then WithoutConn(lists, conn) else lists
    case Close => map[]
  }

  ghost function Replay(ops: seq<Op>): Index
    requires NoVisits(ops)
  {
    if ops == [] then map[]
    else
      var last := |ops| - 1;
      assert NoVisits(ops[..last]) && ops[last] in ops;
      Step(Replay(ops[..last]), ops[last])
  }

  lemma ReplayNext(ops: seq<Op>, i: nat)
    requires i < |ops| && NoVisits(ops[..i + 1])
    ensures NoVisits(ops[..i]) && !ops[i].Visit? && Replay(ops[..i + 1]) == Step(Replay(ops[..i]), ops[i])
  {
    var done := ops[..i + 1];
    assert done[..i] == ops[..i] && done[i] == ops[i] && done[i] in done;
    forall op | op in ops[..i] ensures op in done {
    }
  }

  /** struct conncache; `hash` lists the elements in iteration order. */
  class Cache {
    var hash: seq<Entry>
    var num: int
    var nextId: int
    ghost var bundles: set<Bundle>
    ghost var members: set<Conn>
    ghost var known: set<Conn>     // every connection ever added
    ghost var lists: Index
    ghost var history: seq<Conn>   // the same, in the order of the calls

    /** Each bundle holds and counts the list of its key. */
    ghost predicate Bundled()
      reads this`bundles, this`lists, bundles`conns, bundles`num
    {
      forall b | b in bundles :: b.key in lists && b.conns == lists[b.key] && b.num == |b.conns|
    }

    /** A connection points to the bundle of its host. */
    ghost predicate BackPointers()
      reads this`bundles, this`members, members`bundle
    {
      forall c | c in members :: c.bundle != null && c.bundle in bundles && c.bundle.key == c.host
    }

    /** A connection that is not a member, but once was, points nowhere. */
    ghost predicate Released()
      reads this`members, this`known, known`bundle
    {
      members <= known && forall c | c in known && c !in members :: c.bundle == null
    }

    /** The id of a connection is its place in history, so ids are never reused. */
    ghost predicate Numbered()
      reads this`num, this`nextId, this`members, this`history, members`id
    {
      && (forall c | c in members :: 0 <= c.id < |history| && history[c.id] == c)
      && nextId == |history|
      && num == |members|
    }

    ghost predicate Valid()
      reads this, bundles, known
    {
      && HashOk(hash, bundles) && IndexOk(lists, members) && Bundled()
      && Released() && BackPointers() && Numbered()
    }

    /** Curl_conncache_init. */
    constructor ()
      ensures Valid() && bundles == {} && members == {} && known == {} && lists == map[] && num == 0 && nextId == 0
    {
      hash, bundles, num, nextId := [], {}, 0, 0;
      members, known, lists, history := {}, {}, map[], [];
    }

    /** Curl_hash_pick and Curl_conncache_find_bundle. */
    method FindBundle(key: string) returns (bundle: Bundle?)
      requires HashOk(hash, bundles)
      ensures bundle != null ==> bundle in bundles && bundle.key == key
      ensures bundle == null ==> Absent(hash, key)
    {
      var i := 0;
      while i < |hash| && hash[i].key != key
        invariant 0 <= i <= |hash| && forall k | 0 <= k < i :: hash[k].key != key
      {
        i := i + 1;
      }
      bundle := if i < |hash| then hash[i].bundle else null;
    }

    /** conncache_remove_bundle. */
    method RemoveBundle(bundle: Bundle)
      requires HashOk(hash, bundles) && bundle in bundles
      modifies this`hash, this`bundles
      ensures HashOk(hash, bundles)
      ensures hash == Without(old(hash), Entry(bundle.key, bundle)) && bundles == old(bundles) - {bundle}
    {
      ghost var e := Entry(bundle.key, bundle);
      ghost var place: nat :| place < |hash| && hash[place] == e;
      var i: nat := 0;
      while hash[i].bundle != bundle
        invariant i <= place && hash == old(hash) && e !in hash[..i]
        decreases place - i
      {
        i := i + 1;
      }
      assert hash[i] in hash;
      HashDrop(hash, bundles, bundle);
      WithoutAt(hash, e, i);
      hash := hash[..i] + hash[i + 1..];
      bundles := bundles - {bundle};
    }

    /** Curl_bundle_create and conncache_add_bundle: a new, empty bundle, somewhere in the hash. */
    method CreateBundle(key: string, io: Io) returns (bundle: Bundle?)
      requires HashOk(hash, bundles) && Absent(hash, key)
      modifies this`hash, this`bundles
      ensures HashOk(hash, bundles) && (bundle != null <==> io.createOk && io.hashOk)
      ensures bundle == null ==> unchanged(this)
      ensures bundle != null ==>
                && fresh(bundle) && bundle.conns == [] && bundle.num == 0 && bundle.key == key
                && bundle !in old(bundles) && bundles == old(bundles) + {bundle}
                && Without(hash, Entry(key, bundle)) == old(hash)
    {
      if !io.createOk {
        return null;
      }
      var newBundle := new Bundle(key);
      if !io.hashOk {
        return null;
      }
      var i := if io.at <= |hash| then io.at else |hash|;
      HashInsert(hash, bundles, i, newBundle);
      hash := hash[..i] + [Entry(key, newBundle)] + hash[i..];
      bundles := bundles + {newBundle};
      return newBundle;
    }

    /** Each bundle but this one holds and counts the list of its key. */
    ghost predicate BundledBut(but: Bundle)
      reads this`bundles, this`lists, bundles`conns, bundles`num
    {
      forall b | b in bundles && b != but :: b.key in lists && b.conns == lists[b.key] && b.num == |b.conns|
    }

    /** A host without a bundle has no connections. */
    lemma AbsentIsUnlisted(key: string)
      requires Valid() && Absent(hash, key)
      ensures key !in lists
    {
      forall c | c in members ensures c.host != key {
        assert Entry(c.host, c.bundle) in hash;
      }
      forall k | k in lists ensures k != key {
        assert lists[k][0] in lists[k] && lists[k][0] in members;
      }
    }

    /** Every member but `but` has its id, and the cache counts `off` members more or less. */
    ghost predicate NumberedBut(but: Conn, off: int)
      reads this`num, this`nextId, this`members, this`history, members`id
    {
      && (forall c | c in members && c != but :: 0 <= c.id < |history| && history[c.id] == c)
      && nextId == |history|
      && num == |members| + off
    }

    ghost predicate ReleasedBut(but: Conn)
      reads this`members, this`known, known`bundle
    {
      members <= known && forall c | c in known && c !in members && c != but :: c.bundle == null
    }

    /** One member more. */
    ghost method Join(conn: Conn)
      requires Numbered() && BackPointers() && ReleasedBut(conn) && conn !in members
      requires conn.bundle != null && conn.bundle in bundles && conn.bundle.key == conn.host
      modifies this`members, this`known
      ensures members == old(members) + {conn} && known == old(known) + {conn}
      ensures NumberedBut(conn, -1) && BackPointers() && Released()
    {
      members, known := members + {conn}, known + {conn};
    }

    /** The list of the host follows the bundle. */
    ghost method Enter(conn: Conn, bundle: Bundle, others: set<Conn>)
      requires HashOk(hash, bundles) && IndexOk(lists, others) && conn !in others && members == others + {conn}
      requires BundledBut(bundle)
      requires bundle in bundles && bundle.key == conn.host
      requires bundle.conns == Listed(lists, conn.host) + [conn] && bundle.num == |bundle.conns|
      modifies this`lists
      ensures IndexOk(lists, members) && Bundled() && lists == WithConn(old(lists), conn)
    {
      IndexAdd(lists, others, conn);
      lists := WithConn(lists, conn);
    }

    /** The counters of Curl_conncache_add_conn. */
    method Count(conn: Conn)
      requires HashOk(hash, bundles) && IndexOk(lists, members) && Bundled() && BackPointers()
      requires Released() && conn in members && NumberedBut(conn, -1)
      modifies this`num, this`nextId, this`history, conn`id
      ensures Valid()
      ensures num == old(num) + 1 && conn.id == old(nextId) && history == old(history) + [conn]
    {
      history := history + [conn];
      conn.id := nextId;
      nextId := nextId + 1;
      num := num + 1;
    }

    /** The books after Curl_bundle_add_conn: the connection is a member, but not yet numbered. */
    ghost method Admit(conn: Conn, bundle: Bundle)
      requires HashOk(hash, bundles) && IndexOk(lists, members) && BackPointers() && Numbered()
      requires BundledBut(bundle) && bundle in bundles && bundle.key == conn.host
      requires bundle.conns == Listed(lists, conn.host) + [conn] && bundle.num == |bundle.conns|
      requires conn !in members && conn.bundle == bundle && ReleasedBut(conn)
      modifies this`lists, this`members, this`known
      ensures IndexOk(lists, members) && Bundled() && BackPointers() && Released() && NumberedBut(conn, -1)
      ensures lists == WithConn(old(lists), conn) && members == old(members) + {conn}
      ensures known == old(known) + {conn}
    {
      ghost var others := members;
      Join(conn);
      Enter(conn, bundle, others);
    }

    /** The end of Curl_conncache_add_conn, when the bundle holds the connection. */
    method Commit(conn: Conn, bundle: Bundle)
      requires HashOk(hash, bundles) && IndexOk(lists, members) && BackPointers() && Numbered()
      requires BundledBut(bundle)
      requires bundle in bundles && bundle.key == conn.host
      requires bundle.conns == Listed(lists, conn.host) + [conn] && bundle.num == |bundle.conns|
      requires conn !in members && conn.bundle == bundle && ReleasedBut(conn)
      modifies this`lists, this`members, this`known, this`history, this`num, this`nextId, conn`id
      ensures Valid()
      ensures lists == WithConn(old(lists), conn) && members == old(members) + {conn}
      ensures known == old(known) + {conn}
      ensures num == old(num) + 1 && conn.id == old(nextId) && history == old(history) + [conn]
    {
      Admit(conn, bundle);
      Count(conn);
    }

    /** Curl_conncache_add_conn from its call of Curl_bundle_add_conn, but for the rollback. */
    method AddToBundle(conn: Conn, bundle: Bundle, allocOk: bool) returns (result: Code)
      requires HashOk(hash, bundles) && IndexOk(lists, members) && BackPointers() && Numbered()
      requires BundledBut(bundle)
      requires bundle in bundles && bundle.key == conn.host
      requires bundle.conns == Listed(lists, conn.host) && bundle.num == |bundle.conns|
      requires conn !in members && Released()
      modifies this`lists, this`members, this`known, this`history, this`num, this`nextId, conn, bundle
      ensures result == if allocOk then OK else OutOfMemory
      ensures result == OutOfMemory ==> unchanged(this) && unchanged(conn) && unchanged(bundle)
      ensures result == OK ==>
                && Valid() && lists == WithConn(old(lists), conn) && members == old(members) + {conn}
                && known == old(known) + {conn} && num == old(num) + 1
                && conn.id == old(nextId) && history == old(history) + [conn]
    {
      result := bundle.AddConn(conn, allocOk);
      if result == OK {
        Commit(conn, bundle);
      }
    }

    /** A consistent cache but for a new bundle, which is empty. */
    method MakeBundle(key: string, io: Io) returns (bundle: Bundle?)
      requires Valid() && Absent(hash, key)
      modifies this`hash, this`bundles
      ensures bundle != null <==> io.createOk && io.hashOk
      ensures bundle == null ==> unchanged(this) && Valid()
      ensures bundle != null ==>
                && fresh(bundle) && bundle.conns == [] == Listed(lists, key) && bundle.num == 0 && bundle.key == key
                && bundle !in old(bundles) && bundles == old(bundles) + {bundle}
                && Without(hash, Entry(key, bundle)) == old(hash)
                && HashOk(hash, bundles) && BackPointers() && BundledBut(bundle)
    {
      AbsentIsUnlisted(key);
      bundle := CreateBundle(key, io);
    }

    /** Curl_conncache_add_conn with a new bundle, which is taken back when it stays empty. */
    method AddToMade(conn: Conn, bundle: Bundle, allocOk: bool) returns (result: Code)
      requires HashOk(hash, bundles) && IndexOk(lists, members) && BackPointers() && Numbered()
      requires BundledBut(bundle) && bundle in bundles && bundle.key == conn.host
      requires bundle.conns == Listed(lists, conn.host) && bundle.num == |bundle.conns|
      requires conn !in members && Released()
      modifies this`hash, this`bundles, this`lists, this`members, this`known, this`history, this`num, this`nextId
      modifies conn, bundle
      ensures result == if allocOk then OK else OutOfMemory
      ensures result == OutOfMemory ==>
                && hash == Without(old(hash), Entry(conn.host, bundle)) && bundles == old(bundles) - {bundle}
                && unchanged(this`lists, this`members, this`known, this`history, this`num, this`nextId, conn, bundle)
      ensures result == OK ==>
                && Valid() && lists == WithConn(old(lists), conn) && members == old(members) + {conn}
                && known == old(known) + {conn} && num == old(num) + 1 && bundles == old(bundles)
                && conn.id == old(nextId) && history == old(history) + [conn]
    {
      result := AddToBundle(conn, bundle, allocOk);
      if result != OK {
        RemoveBundle(bundle);
      }
    }

    /** The first connection of a host, in a bundle of its own. */
    method AddFirst(conn: Conn, io: Io) returns (result: Code, ghost made: Bundle?)
      requires Valid() && conn.bundle == null && Absent(hash, conn.host)
      modifies this, conn
      ensures result == if io.createOk && io.hashOk && io.listOk then OK else OutOfMemory
      ensures result == OutOfMemory ==> unchanged(this) && unchanged(conn)
      ensures result == OK ==>
                && Valid() && lists == WithConn(old(lists), conn) && members == old(members) + {conn}
                && known == old(known) + {conn} && num == old(num) + 1
                && conn.id == old(nextId) && history == old(history) + [conn]
                && made != null && fresh(made) && bundles == old(bundles) + {made}
    {
      var bundle := MakeBundle(conn.host, io);
      if bundle == null {
        return OutOfMemory, null;
      }
      made := bundle;
      result := AddToMade(conn, bundle, io.listOk);
      assert old(bundles) + {made} - {made} == old(bundles);
    }

    /** Curl_conncache_add_conn, when the host has no bundle yet. */
    method AddToNew(conn: Conn, io: Io) returns (result: Code, ghost made: set<Bundle>)
      requires Valid() && conn.bundle == null && Absent(hash, conn.host)
      modifies this, conn
      ensures Valid() && fresh(made) && bundles == old(bundles) + made
      ensures result == if io.createOk && io.hashOk && io.listOk then OK else OutOfMemory
      ensures result == OutOfMemory ==> unchanged(this) && unchanged(conn)
      ensures result == OK ==>
                && lists == WithConn(old(lists), conn) && members == old(members) + {conn}
                && known == old(known) + {conn} && num == old(num) + 1
                && conn.id == old(nextId) && history == old(history) + [conn]
    {
      ghost var bundle;
      result, bundle := AddFirst(conn, io);
      made := if result == OK then {bundle} else {};
    }

    /** Curl_conncache_add_conn, when the host has a bundle. */
    method AddToOld(conn: Conn, bundle: Bundle, allocOk: bool) returns (result: Code)
      requires Valid() && conn.bundle == null && bundle in bundles && bundle.key == conn.host
      modifies this`lists, this`members, this`known, this`history, this`num, this`nextId, conn, bundle
      ensures Valid() && result == if allocOk then OK else OutOfMemory
      ensures result == OutOfMemory ==> unchanged(this) && unchanged(conn) && unchanged(bundle)
      ensures result == OK ==>
                && lists == WithConn(old(lists), conn) && members == old(members) + {conn}
                && known == old(known) + {conn} && num == old(num) + 1
                && conn.id == old(nextId) && history == old(history) + [conn]
    {
      result := AddToBundle(conn, bundle, allocOk);
    }

    /** Curl_conncache_add_conn. */
    method AddConn(conn: Conn, io: Io) returns (result: Code)
      requires Valid() && conn.bundle == null
      modifies this, conn, bundles
      ensures Valid() && old(bundles) <= bundles && fresh(bundles - old(bundles))
      ensures result == OK <==> Adds(old(lists), conn, io)
      // a failed add leaves everything as it was
      ensures result == OutOfMemory ==> unchanged(this) && unchanged(conn) && forall b | b in bundles :: unchanged(b)
      // a successful one appends the connection to its host's list and hands out the next id
      ensures result == OK ==>
                && lists == WithConn(old(lists), conn) && members == old(members) + {conn}
                && known == old(known) + {conn} && num == old(num) + 1
                && conn.id == old(nextId) && history == old(history) + [conn]
    {
      var bundle := FindBundle(conn.host);
      if bundle == null {
        AbsentIsUnlisted(conn.host);
        ghost var made: set<Bundle>;
        result, made := AddToNew(conn, io);
      } else {
        result := AddToOld(conn, bundle, io.listOk);
      }
    }

    /** One member less. */
    ghost method Depart(conn: Conn)
      requires Numbered() && conn in members && Released() && conn.bundle == null
      requires forall c | c in members && c != conn :: c.bundle != null && c.bundle in bundles && c.bundle.key == c.host
      modifies this`members
      ensures members == old(members) - {conn} && NumberedBut(conn, 1) && Released() && BackPointers()
    {
      members := members - {conn};
    }

    /** The list of the host follows the bundle; without a bundle there is none. */
    ghost method Shrink(conn: Conn, all: set<Conn>)
      requires HashOk(hash, bundles) && IndexOk(lists, all) && conn in all && members == all - {conn}
      requires forall b | b in bundles && b.key != conn.host ::
                 b.key in lists && b.conns == lists[b.key] && b.num == |b.conns|
      requires forall b | b in bundles && b.key == conn.host ::
                 b.conns == Without(lists[b.key], conn) && b.num == |b.conns| > 0
      modifies this`lists
      ensures IndexOk(lists, members) && Bundled() && lists == WithoutConn(old(lists), conn)
    {
      IndexDrop(lists, all, conn);
      lists := WithoutConn(lists, conn);
    }

    /** The books after Curl_bundle_remove_conn. */
    ghost method Leave(conn: Conn)
      requires HashOk(hash, bundles) && IndexOk(lists, members) && Numbered() && conn in members
      requires Released() && conn.bundle == null
      requires forall b | b in bundles && b.key != conn.host ::
                 b.key in lists && b.conns == lists[b.key] && b.num == |b.conns|
      requires forall b | b in bundles && b.key == conn.host ::
                 b.conns == Without(lists[b.key], conn) && b.num == |b.conns| > 0
      requires forall c | c in members && c != conn :: c.bundle != null && c.bundle in bundles && c.bundle.key == c.host
      modifies this`lists, this`members
      ensures IndexOk(lists, members) && Bundled() && Released() && BackPointers()
      ensures NumberedBut(conn, 1) && conn !in members
      ensures lists == WithoutConn(old(lists), conn) && members == old(members) - {conn}
    {
      ghost var all := members;
      Depart(conn);
      Shrink(conn, all);
    }

    /** The counter of Curl_conncache_remove_conn. */
    method Uncount(ghost conn: Conn)
      requires HashOk(hash, bundles) && IndexOk(lists, members) && Bundled() && BackPointers()
      requires Released() && conn !in members && NumberedBut(conn, 1)
      modifies this`num
      ensures Valid() && num == old(num) - 1
    {
      num := num - 1;
    }

    /** The end of Curl_conncache_remove_conn, when the bundle has given up the connection. */
    method Settle(ghost conn: Conn)
      requires HashOk(hash, bundles) && IndexOk(lists, members) && Numbered() && conn in members
      requires Released() && conn.bundle == null
      requires forall b | b in bundles && b.key != conn.host ::
                 b.key in lists && b.conns == lists[b.key] && b.num == |b.conns|
      requires forall b | b in bundles && b.key == conn.host ::
                 b.conns == Without(lists[b.key], conn) && b.num == |b.conns| > 0
      requires forall c | c in members && c != conn :: c.bundle != null && c.bundle in bundles && c.bundle.key == c.host
      modifies this`num, this`lists, this`members
      ensures Valid()
      ensures num == old(num) - 1 && lists == WithoutConn(old(lists), conn) && members == old(members) - {conn}
    {
      Leave(conn);
      Uncount(conn);
    }

    /** Curl_conncache_remove_conn for a connection in a bundle; the last one takes the bundle with it. */
    method RemoveCached(conn: Conn, bundle: Bundle)
      requires Valid() && conn in members && conn.bundle == bundle
      modifies this`num, this`lists, this`members, this`hash, this`bundles, conn`bundle, bundle
      ensures Valid() && conn.bundle == null && bundle.conns == Without(old(bundle.conns), conn)
      ensures num == old(num) - 1 && lists == WithoutConn(old(lists), conn) && members == old(members) - {conn}
      ensures if bundle.conns == [] then
                hash == Without(old(hash), Entry(conn.host, bundle)) && bundles == old(bundles) - {bundle}
              else
                hash == old(hash) && bundles == old(bundles)
    {
      WithoutKeepsOthers(lists[conn.host], conn);
      var removed := bundle.RemoveConn(conn);
      if bundle.num == 0 {
        RemoveBundle(bundle);
      }
      Settle(conn);
    }

    /** Curl_conncache_remove_conn: a connection that was never added has no bundle, and nothing happens. */
    method RemoveConn(conn: Conn)
      requires Valid() && (conn in known || conn.bundle == null)
      modifies this`num, this`lists, this`members, this`hash, this`bundles, conn`bundle
      modifies if conn.bundle == null then {} else {conn.bundle}
      ensures Valid() && conn.bundle == null && bundles <= old(bundles)
      ensures old(conn.bundle) == null ==> unchanged(this)
      ensures old(conn.bundle) != null ==>
                && num == old(num) - 1 && lists == WithoutConn(old(lists), conn) && members == old(members) - {conn}
    {
      if conn.bundle != null {
        RemoveCached(conn, conn.bundle);
      }
    }

    /** Every count in the cache is right: its own, and those of the bundles together. */
    lemma CountsAgree()
      requires Valid()
      ensures num == |Flatten(hash, lists)| == SumOfCounts(hash)
      ensures NoDup(Flatten(hash, lists)) && forall c | c in members :: c in Flatten(hash, lists)
    {
      assert KeysOnce(hash) by {
        forall i, j | 0 <= i < j < |hash| ensures hash[i].key != hash[j].key {
          assert hash[i] in hash && hash[j] in hash && hash[i] != hash[j];
        }
      }
      forall k | k in lists ensures exists e :: e in hash && e.key == k {
        var c := lists[k][0];
        assert c in lists[k];
        assert Entry(k, c.bundle) in hash;
      }
      FlattenSize(hash, lists, members);
      SumIsFlattened(hash, lists);
      FlattenNoDup(hash, lists, members);
      forall c | c in members ensures c in Flatten(hash, lists) {
        FlattenMember(hash, lists, members, c);
      }
    }

    /** The connection that is found first. */
    ghost predicate IsFirst(conn: Conn?)
      reads this`hash, this`lists, this`members
    {
      if hash == [] then conn == null && members == {}
      else
        && hash[0].key in lists && lists[hash[0].key] != [] && conn == lists[hash[0].key][0]
        && conn in members && conn.host == hash[0].key
    }

    /** The bundles before place `at` are empty. */
    ghost predicate EmptyBefore(at: nat)
      requires at <= |hash|
      reads this`hash, set e | e in hash :: e.bundle
    {
      forall k | 0 <= k < at :: hash[k].bundle.conns == []
    }

    ghost predicate HeadOf(conn: Conn?, bundle: Bundle)
      reads bundle
    {
      bundle.conns != [] && conn == bundle.conns[0]
    }

    /** Curl_conncache_find_first_connection: the head of the first list that is not empty. */
    method FindFirst() returns (conn: Conn?)
      ensures conn == null ==> EmptyBefore(|hash|)
      ensures conn != null ==>
                exists at :: 0 <= at < |hash| && EmptyBefore(at) && HeadOf(conn, hash[at].bundle)
    {
      var i := 0;
      while i < |hash|
        invariant 0 <= i <= |hash| && EmptyBefore(i)
      {
        var bundle := hash[i].bundle;
        if bundle.conns != [] {
          return bundle.conns[0];
        }
        i := i + 1;
      }
      return null;
    }

    lemma FirstListIsNotEmpty()
      requires Valid() && hash != []
      ensures hash[0].key in lists && lists[hash[0].key] != [] && hash[0].bundle.conns == lists[hash[0].key]
      ensures lists[hash[0].key][0] in members && lists[hash[0].key][0].host == hash[0].key
    {
      assert hash[0] in hash;
      assert lists[hash[0].key][0] in lists[hash[0].key];
    }

    lemma EmptyHasNoMembers()
      requires Valid() && hash == []
      ensures members == {}
    {
      assert forall c | c in members :: Entry(c.bundle.key, c.bundle) in hash;
    }

    /** No list is empty, so it is the first one. */
    lemma FoundIsFirst(conn: Conn?)
      requires Valid()
      requires conn == null ==> EmptyBefore(|hash|)
      requires conn != null ==>
                 exists at :: 0 <= at < |hash| && EmptyBefore(at) && HeadOf(conn, hash[at].bundle)
      ensures IsFirst(conn)
    {
      if hash == [] {
        EmptyHasNoMembers();
      } else {
        FirstListIsNotEmpty();
      }
    }

    /** Removing the first connection leaves the others in order. */
    lemma FirstRemoved(conn: Conn)
      requires Valid() && hash != [] && IsFirst(conn)
      ensures var hash' := if Without(lists[conn.host], conn) == [] then Without(hash, hash[0]) else hash;
              && Flatten(hash, lists) != [] && Flatten(hash, lists)[0] == conn
              && Flatten(hash, lists)[1..] == Flatten(hash', WithoutConn(lists, conn))
    {
      forall e | e in hash[1..] ensures e.key != hash[0].key {
        assert e in hash && hash[0] in hash && e != hash[0];
      }
      HeadRemoved(hash, lists, conn);
    }

    /** The first connection is disconnected. */
    method CloseFirst(conn: Conn)
      requires Valid() && IsFirst(conn)
      modifies this`num, this`lists, this`members, this`hash, this`bundles, members`bundle, bundles
      ensures Valid() && members == old(members) - {conn} && bundles <= old(bundles)
      ensures Flatten(old(hash), old(lists)) != [] && Flatten(old(hash), old(lists))[0] == conn
      ensures Flatten(old(hash), old(lists))[1..] == Flatten(hash, lists)
    {
      assert hash[0] in hash;
      FirstRemoved(conn);
      RemoveCached(conn, conn.bundle);
    }

    /** Curl_conncache_find_first_connection on a consistent cache. */
    method PickFirst() returns (conn: Conn?)
      requires Valid()
      ensures IsFirst(conn)
    {
      conn := FindFirst();
      FoundIsFirst(conn);
    }

    /** One round of close_all_connections. */
    method CloseNext(conn: Conn) returns (next: Conn?)
      requires Valid() && IsFirst(conn)
      modifies this`num, this`lists, this`members, this`hash, this`bundles, members`bundle, bundles
      ensures Valid() && IsFirst(next) && members <= old(members) && bundles <= old(bundles)
      ensures Flatten(old(hash), old(lists)) != [] && Flatten(old(hash), old(lists))[0] == conn
      ensures Flatten(old(hash), old(lists))[1..] == Flatten(hash, lists)
    {
      CloseFirst(conn);
      next := PickFirst();
    }

    /** close_all_connections (multi.c): find the first connection and disconnect it, until there is none. */
    method CloseAll() returns (closed: seq<Conn>)
      requires Valid()
      modifies this`num, this`lists, this`members, this`hash, this`bundles, members`bundle, bundles
      ensures Valid() && members == {} && num == 0 && hash == [] && bundles <= old(bundles)
      ensures closed == Flatten(old(hash), old(lists)) && forall c | c in old(members) :: c.bundle == null
    {
      ghost var order := Flatten(hash, lists);
      closed := [];
      var conn := PickFirst();
      while conn != null
        invariant Valid() && IsFirst(conn) && members <= old(members) && bundles <= old(bundles)
        invariant Split(order, closed, Flatten(hash, lists))
        decreases |order| - |closed|
      {
        var first: Conn := conn;
        SplitNext(order, closed, Flatten(hash, lists));
        conn := CloseNext(first);
        closed := closed + [first];
      }
    }

    /** One call of the callback: the next element is taken first, since the callback may remove this one. */
    method CallBack(bundle: Bundle, conn: Conn, removes: bool, ghost rest: seq<Conn>) returns (next: Option<Conn>)
      requires Valid() && bundle in bundles && rest != [] && conn == rest[0] && EndsWith(bundle.conns, rest)
      modifies this`num, this`lists, this`members, this`hash, this`bundles, members`bundle, bundle
      ensures Valid() && next == First(rest[1..])
      ensures rest[1..] != [] ==> bundle in bundles && EndsWith(bundle.conns, rest[1..])
      ensures members == (if removes then old(members) - {conn} else old(members))
      ensures SameElsewhere(old(lists), lists, bundle.key)
      ensures Kept(old(hash), hash, bundle, old(bundles), bundles)
    {
      Advance(bundle.conns, rest);
      next := After(bundle.conns, conn);
      if removes {
        OtherListsStay(lists, conn);
        RemoveCached(conn, bundle);
      }
    }

    /** The inner loop of Curl_conncache_foreach. */
    method VisitBundle(bundle: Bundle, removes: set<Conn>, stops: set<Conn>)
      returns (visited: seq<Conn>, stopped: bool)
      requires Valid() && bundle in bundles
      modifies this`num, this`lists, this`members, this`hash, this`bundles, members`bundle, bundle
      ensures Valid() && visited <= old(bundle.conns) && Served(visited, stops, stopped)
      ensures !stopped ==> visited == old(bundle.conns)
      ensures members == Struck(old(members), visited, removes)
      ensures SameElsewhere(old(lists), lists, bundle.key)
      ensures Kept(old(hash), hash, bundle, old(bundles), bundles)
    {
      ghost var all := bundle.conns;
      ghost var rest := all;
      visited, stopped := [], false;
      var curr := First(bundle.conns);
      while curr.Some? && !stopped
        invariant Valid() && members == Struck(old(members), visited, removes)
        invariant Split(all, visited, rest) && Served(visited, stops, stopped) && curr == First(rest)
        invariant rest != [] ==> bundle in bundles && EndsWith(bundle.conns, rest)
        invariant SameElsewhere(old(lists), lists, bundle.key)
        invariant Kept(old(hash), hash, bundle, old(bundles), bundles)
        decreases |rest|
      {
        var conn := curr.value;
        SplitNext(all, visited, rest);
        StruckNext(old(members), visited, conn, removes);
        ServedNext(visited, conn, stops);
        curr := CallBack(bundle, conn, conn in removes, rest);
        visited, rest, stopped := visited + [conn], rest[1..], conn in stops;
      }
    }

    /** One round of Curl_conncache_foreach: the next element is taken first, since this one may go. */
    method VisitNext(e: Entry, removes: set<Conn>, stops: set<Conn>, ghost todo: seq<Entry>)
      returns (next: Option<Entry>, visited: seq<Conn>, stopped: bool)
      requires Valid() && todo != [] && EndsWith(hash, todo) && e == todo[0]
      modifies this`num, this`lists, this`members, this`hash, this`bundles, members`bundle, bundles
      ensures Valid() && bundles <= old(bundles) && next == First(todo[1..]) && EndsWith(hash, todo[1..])
      ensures visited <= Listed(old(lists), e.key) && Served(visited, stops, stopped)
      ensures !stopped ==> visited == Listed(old(lists), e.key)
      ensures members == Struck(old(members), visited, removes)
      ensures SameLists(todo[1..], old(lists), lists)
    {
      Advance(hash, todo);
      OtherKeys(hash, bundles, todo);
      next := After(hash, e);
      visited, stopped := VisitBundle(e.bundle, removes, stops);
    }

    /** Curl_conncache_foreach: the callback removes the connections in `removes` and stops at one in `stops`. */
    method ForEach(removes: set<Conn>, stops: set<Conn>)
      returns (visited: seq<Conn>, stopped: bool)
      requires Valid()
      modifies this`num, this`lists, this`members, this`hash, this`bundles, members`bundle, bundles
      ensures Valid() && members == Struck(old(members), visited, removes) && bundles <= old(bundles)
      ensures forall c | c in old(members) && c !in members :: c.bundle == null
      // every connection present at the start is visited once, in order, up to the first that stops the loop
      ensures visited <= Flatten(old(hash), old(lists)) && Served(visited, stops, stopped)
      ensures !stopped ==> visited == Flatten(old(hash), old(lists))
    {
      ghost var all := Flatten(hash, lists);
      ghost var todo := hash;
      visited, stopped := [], false;
      var he := First(hash);
      while he.Some? && !stopped
        invariant Valid() && bundles <= old(bundles) && members == Struck(old(members), visited, removes)
        invariant he == First(todo) && EndsWith(hash, todo) && SameLists(todo, old(lists), lists)
        invariant Progress(all, todo, old(lists), visited, stops, stopped)
        decreases |todo|
      {
        var chunk;
        ghost var before := lists;
        he, chunk, stopped := VisitNext(he.value, removes, stops, todo);
        ProgressOn(all, todo, old(lists), visited, chunk, stops, stopped);
        SameListsOn(todo, old(lists), before, lists);
        StruckOn(old(members), visited, chunk, removes);
        visited, todo := visited + chunk, todo[1..];
      }
      ProgressEnds(all, todo, old(lists), visited, stops, stopped);
    }

    /** A consistent cache, in a pool of connections of which the others point nowhere. */
    ghost predicate Consistent(pool: set<Conn>)
      reads this, bundles, known, pool
    {
      Valid() && known <= pool && forall c | c in pool && c !in known :: c.bundle == null
    }

    /** A connection points to a bundle of the cache if and only if it is on its list, and to no other bundle. */
    lemma PointersAgree(pool: set<Conn>)
      requires Consistent(pool)
      ensures forall c, b | c in pool && b in bundles :: c.bundle == b <==> c in b.conns
      ensures forall c | c in pool && c.bundle != null :: c.bundle in bundles && c in c.bundle.conns
    {
    }

    /** The back pointer tells whether a connection is in the cache. */
    lemma PointerTellsMember(pool: set<Conn>, conn: Conn)
      requires Consistent(pool) && conn in pool
      ensures conn.bundle != null <==> Member(lists, conn)
      ensures conn.bundle != null <==> conn in members
    {
    }

    lemma NoMembersNoLists()
      requires Valid() && members == {}
      ensures lists == map[]
    {
      forall k | k in lists ensures lists[k][0] in members {
        assert lists[k][0] in lists[k];
      }
      assert forall k :: k !in lists;
    }

    method AddFree(conn: Conn, io: Io, ghost pool: set<Conn>)
      requires Consistent(pool) && conn in pool && conn.bundle == null
      modifies this, conn, bundles
      ensures Consistent(pool) && fresh(bundles - old(bundles))
      ensures lists == if Adds(old(lists), conn, io) then WithConn(old(lists), conn) else old(lists)
    {
      var result := AddConn(conn, io);
    }

    method ApplyAdd(conn: Conn, io: Io, ghost pool: set<Conn>)
      requires Consistent(pool) && conn in pool
      modifies this, conn, bundles
      ensures Consistent(pool) && fresh(bundles - old(bundles))
      ensures lists == Step(old(lists), Add(conn, io))
    {
      PointerTellsMember(pool, conn);
      if conn.bundle == null {
        AddFree(conn, io, pool);
      }
    }

    method RemoveFrom(conn: Conn, ghost pool: set<Conn>)
      requires Consistent(pool) && conn in pool && conn.bundle != null
      modifies this, conn, bundles
      ensures Consistent(pool) && bundles <= old(bundles) && lists == WithoutConn(old(lists), conn)
    {
      RemoveConn(conn);
    }

    method ApplyRemove(conn: Conn, ghost pool: set<Conn>)
      requires Consistent(pool) && conn in pool
      modifies this, conn, bundles
      ensures Consistent(pool) && bundles <= old(bundles)
      ensures lists == Step(old(lists), Remove(conn))
    {
      PointerTellsMember(pool, conn);
      if conn.bundle != null {
        RemoveFrom(conn, pool);
      } else {
        RemoveConn(conn);
      }
    }

    method ApplyVisit(removes: set<Conn>, stops: set<Conn>, ghost pool: set<Conn>)
      requires Consistent(pool)
      modifies this, pool, bundles
      ensures Consistent(pool) && bundles <= old(bundles)
    {
      var visited, stopped := ForEach(removes, stops);
    }

    method ApplyClose(ghost pool: set<Conn>)
      requires Consistent(pool)
      modifies this, pool, bundles
      ensures Consistent(pool) && bundles <= old(bundles) && lists == Step(old(lists), Close)
    {
      var closed := CloseAll();
      NoMembersNoLists();
    }

    /** One call; a connection in the cache is not added again. */
    method Apply(op: Op, ghost pool: set<Conn>)
      requires Consistent(pool) && (op.Add? || op.Remove? ==> op.conn in pool)
      modifies this, pool, bundles
      ensures Consistent(pool) && fresh(bundles - old(bundles))
      ensures !op.Visit? ==> lists == Step(old(lists), op)
    {
      match op
      case Add(conn, io) => ApplyAdd(conn, io, pool);
      case Remove(conn) => ApplyRemove(conn, pool);
      case Visit(removes, stops) => ApplyVisit(removes, stops, pool);
      case Close => ApplyClose(pool);
    }
  }

  /** What is visited and what is still to do make up the whole, unless the loop was stopped. */
  ghost predicate Progress(all: seq<Conn>, todo: seq<Entry>, lists: Index, visited: seq<Conn>, stops: set<Conn>,
                           stopped: bool)
  {
    && Served(visited, stops, stopped) && visited <= all
    && (!stopped ==> Split(all, visited, Flatten(todo, lists)))
  }

  lemma ProgressOn(all: seq<Conn>, todo: seq<Entry>, lists: Index, visited: seq<Conn>, chunk: seq<Conn>,
                   stops: set<Conn>, stopped: bool)
    requires todo != [] && Progress(all, todo, lists, visited, stops, false) && Served(chunk, stops, stopped)
    requires chunk <= Listed(lists, todo[0].key) && (!stopped ==> chunk == Listed(lists, todo[0].key))
    ensures Progress(all, todo[1..], lists, visited + chunk, stops, stopped)
  {
    SplitChunk(all, visited, chunk, Listed(lists, todo[0].key), Flatten(todo[1..], lists));
  }

  lemma ProgressEnds(all: seq<Conn>, todo: seq<Entry>, lists: Index, visited: seq<Conn>, stops: set<Conn>,
                     stopped: bool)
    requires Progress(all, todo, lists, visited, stops, stopped)
    ensures todo == [] && !stopped ==> visited == all
  {
  }

  lemma SameListsOn(todo: seq<Entry>, a: Index, b: Index, c: Index)
    requires todo != [] && SameLists(todo, a, b) && SameLists(todo[1..], b, c)
    ensures SameLists(todo[1..], a, c)
  {
  }

  /** The lists of these elements are as before. */
  ghost predicate SameLists(todo: seq<Entry>, before: Index, after: Index) {
    forall e | e in todo :: Listed(before, e.key) == Listed(after, e.key)
  }

  lemma OtherKeys(hash: seq<Entry>, bundles: set<Bundle>, todo: seq<Entry>)
    requires HashOk(hash, bundles) && EndsWith(hash, todo) && todo != []
    ensures todo[0] in hash && forall e | e in todo[1..] :: e.key != todo[0].key
  {
    var at := |hash| - |todo|;
    assert hash[at] == todo[0];
    forall e | e in todo[1..] ensures e.key != todo[0].key {
      var i :| 1 <= i < |todo| && todo[i] == e;
      assert hash[at + i] == e && hash[at + i] in hash;
    }
  }

  lemma SplitChunk<T>(all: seq<T>, front: seq<T>, chunk: seq<T>, whole: seq<T>, back: seq<T>)
    requires Split(all, front, whole + back) && chunk <= whole
    ensures front + chunk <= all
    ensures chunk == whole ==> Split(all, front + chunk, back)
  {
    assert all == front + whole + back;
    assert whole == chunk + whole[|chunk|..];
    assert all == (front + chunk) + (whole[|chunk|..] + back);
  }

  lemma {:induction false} StruckOn(members: set<Conn>, visited: seq<Conn>, chunk: seq<Conn>, removes: set<Conn>)
    ensures Struck(Struck(members, visited, removes), chunk, removes) == Struck(members, visited + chunk, removes)
  {
    if chunk == [] {
      assert visited + chunk == visited;
    } else {
      var n := |chunk| - 1;
      StruckOn(members, visited, chunk[..n], removes);
      assert chunk == chunk[..n] + [chunk[n]];
      assert visited + chunk == (visited + chunk[..n]) + [chunk[n]];
      StruckNext(members, visited + chunk[..n], chunk[n], removes);
    }
  }

  /** Exactly the visited connections that the callback removes are gone. */
  lemma {:induction false} StruckAreTheRemoved(members: set<Conn>, visited: seq<Conn>, removes: set<Conn>)
    ensures Struck(members, visited, removes) == members - set c | c in visited && c in removes
  {
    if visited != [] {
      var n := |visited| - 1;
      StruckAreTheRemoved(members, visited[..n], removes);
      assert visited == visited[..n] + [visited[n]];
    }
  }

  /** The bundle is still in the hash, or has gone. */
  ghost predicate Kept(before: seq<Entry>, after: seq<Entry>, bundle: Bundle, had: set<Bundle>, has: set<Bundle>) {
    if bundle in has then after == before && has == had
    else after == Without(before, Entry(bundle.key, bundle)) && has == had - {bundle}
  }

  /** The members without the visited connections that the callback removed. */
  ghost function Struck(members: set<Conn>, visited: seq<Conn>, removes: set<Conn>): (r: set<Conn>)
    ensures r <= members
  {
    if visited == [] then members
    else
      var conn := visited[|visited| - 1];
      var before := Struck(members, visited[..|visited| - 1], removes);
      if conn in removes then before - {conn} else before
  }

  lemma StruckNext(members: set<Conn>, visited: seq<Conn>, conn: Conn, removes: set<Conn>)
    ensures Struck(members, visited + [conn], removes) ==
              if conn in removes then Struck(members, visited, removes) - {conn} else Struck(members, visited, removes)
  {
    assert (visited + [conn])[..|visited|] == visited;
  }

  /** The lists of the other hosts are as before. */
  ghost predicate SameElsewhere(before: Index, after: Index, key: string) {
    forall k | k != key :: Listed(before, k) == Listed(after, k)
  }

  lemma OtherListsStay(lists: Index, conn: Conn)
    ensures SameElsewhere(lists, WithoutConn(lists, conn), conn.host)
  {
  }

  /** The visits end with the first one that asks to stop, if any. */
  ghost predicate Served(visited: seq<Conn>, stops: set<Conn>, stopped: bool) {
    && (stopped ==> visited != [])
    && forall i | 0 <= i < |visited| :: visited[i] in stops <==> stopped && i == |visited| - 1
  }

  lemma ServedNext(visited: seq<Conn>, conn: Conn, stops: set<Conn>)
    requires Served(visited, stops, false)
    ensures Served(visited + [conn], stops, conn in stops)
  {
    var more := visited + [conn];
    assert more[|visited|] == conn && forall i | 0 <= i < |visited| :: more[i] == visited[i];
  }

  /** Any calls, in any order, on a new cache and any pool of connections. */
  method Session(ghost pool: set<Conn>, ops: seq<Op>) returns (cache: Cache)
    requires Within(ops, pool) && forall c | c in pool :: c.bundle == null
    modifies pool
    ensures fresh(cache) && fresh(cache.bundles) && cache.Consistent(pool)
    ensures forall c, b | c in pool && b in cache.bundles :: c.bundle == b <==> c in b.conns
    ensures forall c | c in pool && c.bundle != null :: c.bundle in cache.bundles && c in c.bundle.conns
    ensures cache.num == |Flatten(cache.hash, cache.lists)| == SumOfCounts(cache.hash)
    ensures NoDup(Flatten(cache.hash, cache.lists))
    ensures NoVisits(ops) ==> cache.lists == Replay(ops)
  {
    cache := new Cache();
    for i := 0 to |ops|
      invariant fresh(cache) && fresh(cache.bundles) && cache.Consistent(pool)
      invariant NoVisits(ops[..i]) ==> cache.lists == Replay(ops[..i])
    {
      cache.Apply(ops[i], pool);
      if NoVisits(ops[..i + 1]) {
        ReplayNext(ops, i);
      }
    }
    assert ops[..|ops|] == ops;
    cache.PointersAgree(pool);
    cache.CountsAgree();
  }
}
