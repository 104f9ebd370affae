/**
 Base64 (base64.c): the encoder, the decoder, and the two round trips between them (section 4 of
 RFC 4648). Texts are C strings without their terminator.
 */
module Base64 {
  import opened Basics

  datatype Code = OK | BadContentEncoding | OutOfMemory

  // ---------------------------------------------------------------- the alphabets

  /** The tables base64[] and base64url[]. */
  function Symbol(url: bool, v: nat): char
    requires v < 64
  {
    if v < 26 then ('A' as int + v) as char
    else if v < 52 then ('a' as int + v - 26) as char
    else if v < 62 then ('0' as int + v - 52) as char
    else if v == 62 then (if url then '-' else '+')
    else (if url then '_' else '/')
  }

  /** The place of a character in base64[], or 64. */
  function Value(c: char): nat {
    if 'A' <= c <= 'Z' then c as int - 'A' as int
    else if 'a' <= c <= 'z' then c as int - 'a' as int + 26
    else if '0' <= c <= '9' then c as int - '0' as int + 52
    else if c == '+' then 62
    else if c == '/' then 63
    else 64
  }

  /** The table and its search are inverse. */
  lemma ValueOfSymbol(v: nat)
    requires v < 64
    ensures Value(Symbol(false, v)) == v && Symbol(false, v) != '='
  {
  }

  lemma SymbolOfValue(c: char)
    ensures Value(c) <= 64 && (Value(c) < 64 ==> Symbol(false, Value(c)) == c)
  {
  }

  /** The search of the table in decodeQuantum. */
  method FindValue(c: char) returns (v: nat)
    ensures v == Value(c) <= 64
  {
    SymbolOfValue(c);
    v := 0;
    while v < 64 && Symbol(false, v) != c
      invariant v <= Value(c)
    {
      ValueOfSymbol(v);
      v := v + 1;
    }
  }

  // ---------------------------------------------------------------- groups of three bytes, quanta of four characters

  type Group = g: seq<byte> | 1 <= |g| <= 3 witness [0]

  /** The four characters for one, two or three bytes. */
  function EncodeGroup(url: bool, g: Group): string {
    if |g| == 1 then
      [Symbol(url, g[0] / 4), Symbol(url, g[0] % 4 * 16), '=', '=']
    else if |g| == 2 then
      [Symbol(url, g[0] / 4), Symbol(url, g[0] % 4 * 16 + g[1] / 16), Symbol(url, g[1] % 16 * 4), '=']
    else
      [Symbol(url, g[0] / 4), Symbol(url, g[0] % 4 * 16 + g[1] / 16),
       Symbol(url, g[1] % 16 * 4 + g[2] / 64), Symbol(url, g[2] % 64)]
  }

  predicate Known(c: char) {
    c == '=' || Value(c) < 64
  }

  /** The six bits of a character; padding stands for zeros. */
  function Sextet(c: char): (v: nat)
    ensures v < 64
  {
    if Value(c) < 64 then Value(c) else 0
  }

  /** Four characters, the last one or two of which may be padding. */
  predicate Quantum(q: string) {
    && |q| == 4 && (forall i | 0 <= i < 4 :: Known(q[i]))
    && q[0] != '=' && q[1] != '=' && (q[2] == '=' ==> q[3] == '=')
  }

  /** The bytes of a quantum. */
  function DecodeGroup(q: string): (g: Group)
    requires |q| == 4
    ensures |g| == 3 - Padding(q)
  {
    var a, b, c, d := Sextet(q[0]), Sextet(q[1]), Sextet(q[2]), Sextet(q[3]);
    var g: seq<byte> := [a * 4 + b / 16, b % 16 * 16 + c / 4, c % 4 * 64 + d];
    g[..3 - Padding(q)]
  }

  function Padding(q: string): nat
    requires |q| >= 4
  {
    if q[|q| - 1] != '=' then 0 else if q[|q| - 2] != '=' then 1 else 2
  }

  /** The last sextet before the padding, without the bits that no byte uses. */
  function Cleared(q: string): string
    requires Quantum(q)
  {
    if Padding(q) == 0 then q
    else if Padding(q) == 1 then q[2 := Symbol(false, Sextet(q[2]) / 4 * 4)]
    else q[1 := Symbol(false, Sextet(q[1]) / 16 * 16)]
  }

  /** The bits of three bytes, regrouped into sextets and back. */
  lemma Spread(x: nat, y: nat, z: nat)
    requires x < 256 && y < 256 && z < 256
    ensures var a, b, c, d := x / 4, x % 4 * 16 + y / 16, y % 16 * 4 + z / 64, z % 64;
            && a < 64 && b < 64 && c < 64 && x % 4 * 16 < 64 && y % 16 * 4 < 64
            && a * 4 + b / 16 == x && b % 16 * 16 + c / 4 == y && c % 4 * 64 + d == z
            && a * 4 + x % 4 * 16 / 16 == x && b % 16 * 16 + y % 16 * 4 / 4 == y
  {
    var b, c := x % 4 * 16 + y / 16, y % 16 * 4 + z / 64;
    assert b / 16 == x % 4 && b % 16 == y / 16;
    assert c / 4 == y % 16 && c % 4 == z / 64;
  }

  lemma SextetOfSymbol(v: nat)
    requires v < 64
    ensures var c := Symbol(false, v); c != '=' && Known(c) && Sextet(c) == v
  {
  }

  lemma OneByteRoundTrip(g: Group)
    requires |g| == 1
    ensures Quantum(EncodeGroup(false, g)) && DecodeGroup(EncodeGroup(false, g)) == g
  {
    Spread(g[0], 0, 0);
    SextetOfSymbol(g[0] / 4);
    SextetOfSymbol(g[0] % 4 * 16);
  }

  lemma TwoBytesRoundTrip(g: Group)
    requires |g| == 2
    ensures Quantum(EncodeGroup(false, g)) && DecodeGroup(EncodeGroup(false, g)) == g
  {
    Spread(g[0], g[1], 0);
    SextetOfSymbol(g[0] / 4);
    SextetOfSymbol(g[0] % 4 * 16 + g[1] / 16);
    SextetOfSymbol(g[1] % 16 * 4);
  }

  lemma ThreeBytesRoundTrip(g: Group)
    requires |g| == 3
    ensures Quantum(EncodeGroup(false, g)) && DecodeGroup(EncodeGroup(false, g)) == g
  {
    Spread(g[0], g[1], g[2]);
    SextetOfSymbol(g[0] / 4);
    SextetOfSymbol(g[0] % 4 * 16 + g[1] / 16);
    SextetOfSymbol(g[1] % 16 * 4 + g[2] / 64);
    SextetOfSymbol(g[2] % 64);
  }

  lemma GroupRoundTrip(g: Group)
    ensures Quantum(EncodeGroup(false, g)) && DecodeGroup(EncodeGroup(false, g)) == g
  {
    if |g| == 1 {
      OneByteRoundTrip(g);
    } else if |g| == 2 {
      TwoBytesRoundTrip(g);
    } else {
      ThreeBytesRoundTrip(g);
    }
  }

  /** The bits of four sextets, regrouped into bytes and back. */
  lemma Regrouped(a: nat, b: nat, c: nat, d: nat)
    requires a < 64 && b < 64 && c < 64 && d < 64
    ensures var x, y, z := a * 4 + b / 16, b % 16 * 16 + c / 4, c % 4 * 64 + d;
            && x / 4 == a && x % 4 * 16 == b / 16 * 16 && x % 4 * 16 + y / 16 == b
            && y % 16 * 4 == c / 4 * 4 && y % 16 * 4 + z / 64 == c && z % 64 == d
  {
    var x, y, z := a * 4 + b / 16, b % 16 * 16 + c / 4, c % 4 * 64 + d;
    assert x / 4 == a && x % 4 == b / 16;
    assert y / 16 == b % 16 && y % 16 == c / 4;
    assert z / 64 == c % 4 && z % 64 == d;
  }

  lemma SymbolOfSextet(c: char)
    requires Known(c) && c != '='
    ensures Symbol(false, Sextet(c)) == c
  {
  }

  lemma FullQuantumRoundTrip(q: string)
    requires Quantum(q) && Padding(q) == 0
    ensures EncodeGroup(false, DecodeGroup(q)) == q
  {
    Regrouped(Sextet(q[0]), Sextet(q[1]), Sextet(q[2]), Sextet(q[3]));
    SymbolOfSextet(q[0]);
    SymbolOfSextet(q[1]);
    SymbolOfSextet(q[2]);
    SymbolOfSextet(q[3]);
  }

  lemma PaddedQuantumRoundTrip(q: string)
    requires Quantum(q) && Padding(q) > 0
    ensures EncodeGroup(false, DecodeGroup(q)) == Cleared(q)
  {
    Regrouped(Sextet(q[0]), Sextet(q[1]), Sextet(q[2]), Sextet(q[3]));
    SymbolOfSextet(q[0]);
    SymbolOfSextet(q[1]);
  }

  lemma QuantumRoundTrip(q: string)
    requires Quantum(q)
    ensures EncodeGroup(false, DecodeGroup(q)) == Cleared(q)
  {
    if Padding(q) == 0 {
      FullQuantumRoundTrip(q);
    } else {
      PaddedQuantumRoundTrip(q);
    }
  }

  // ---------------------------------------------------------------- whole texts

  function GroupCount(size: nat): nat {
    (size + 2) / 3
  }

  function GroupAt(data: seq<byte>, i: nat): Group
    requires i < GroupCount(|data|)
  {
    data[3 * i..if 3 * i + 3 <= |data| then 3 * i + 3 else |data|]
  }

  /** The text of the first `n` groups. */
  function EncodeGroups(url: bool, data: seq<byte>, n: nat): (s: string)
    requires n <= GroupCount(|data|)
    ensures |s| == 4 * n
  {
    if n == 0 then [] else EncodeGroups(url, data, n - 1) + EncodeGroup(url, GroupAt(data, n - 1))
  }

  function Encoded(url: bool, data: seq<byte>): string {
    EncodeGroups(url, data, GroupCount(|data|))
  }

  /** Whole quanta, with padding in the last one only. */
  predicate Shaped(s: string) {
    |s| > 0 && |s| % 4 == 0 && forall i | 0 <= i < |s| - Padding(s) :: s[i] != '='
  }

  /** What the decoder accepts. */
  predicate WellFormed(s: string) {
    Shaped(s) && forall i | 0 <= i < |s| :: Known(s[i])
  }

  function QuantumAt(s: string, i: nat): (q: string)
    requires 4 * i + 4 <= |s|
    ensures |q| == 4
  {
    s[4 * i..4 * i + 4]
  }

  lemma QuantumOfText(s: string, i: nat)
    requires WellFormed(s) && 4 * i + 4 <= |s|
    ensures Quantum(QuantumAt(s, i)) && Padding(QuantumAt(s, i)) == if 4 * i + 4 == |s| then Padding(s) else 0
  {
    var q := QuantumAt(s, i);
    assert forall k | 0 <= k < 4 :: q[k] == s[4 * i + k];
  }

  /** The bytes of the first `n` quanta. */
  function DecodeGroups(s: string, n: nat): seq<byte>
    requires 4 * n <= |s|
  {
    if n == 0 then [] else DecodeGroups(s, n - 1) + DecodeGroup(QuantumAt(s, n - 1))
  }

  function Decoded(s: string): seq<byte> {
    DecodeGroups(s, |s| / 4)
  }

  lemma {:induction false} DecodedSize(s: string, n: nat)
    requires WellFormed(s) && 4 * n <= |s|
    ensures |DecodeGroups(s, n)| == if 4 * n == |s| then 3 * n - Padding(s) else 3 * n
  {
    if n > 0 {
      DecodedSize(s, n - 1);
      QuantumOfText(s, n - 1);
    }
  }

  lemma {:induction false} EncodedQuantum(url: bool, data: seq<byte>, n: nat, i: nat)
    requires i < n <= GroupCount(|data|)
    ensures QuantumAt(EncodeGroups(url, data, n), i) == EncodeGroup(url, GroupAt(data, i))
  {
    if i < n - 1 {
      EncodedQuantum(url, data, n - 1, i);
      SliceOfFront(EncodeGroups(url, data, n - 1), EncodeGroup(url, GroupAt(data, n - 1)), 4 * i, 4 * i + 4);
    }
  }

  /** A text of quanta is accepted if only the last one is padded. */
  lemma WellFormedByQuanta(s: string)
    requires |s| > 0 && |s| % 4 == 0
    requires forall i | 0 <= i < |s| / 4 ::
               Quantum(QuantumAt(s, i)) && (4 * i + 4 < |s| ==> Padding(QuantumAt(s, i)) == 0)
    ensures WellFormed(s) && Padding(s) == Padding(QuantumAt(s, |s| / 4 - 1))
  {
    var last := QuantumAt(s, |s| / 4 - 1);
    assert s[|s| - 1] == last[3] && s[|s| - 2] == last[2];
    forall i | 0 <= i < |s| ensures Known(s[i]) && (i < |s| - Padding(s) ==> s[i] != '=') {
      var q := QuantumAt(s, i / 4);
      assert s[i] == q[i % 4] && Known(q[i % 4]);
      assert 4 * (i / 4) + 4 < |s| ==> Padding(q) == 0;
    }
  }

  lemma LastGroup(data: seq<byte>, i: nat)
    requires i < GroupCount(|data|)
    ensures |GroupAt(data, i)| == if i == GroupCount(|data|) - 1 then |data| - 3 * i else 3
  {
  }

  /** The encoder's text is accepted; it ends in one pad character for each byte missing from the last group. */
  lemma EncodedIsWellFormed(data: seq<byte>)
    requires data != []
    ensures WellFormed(Encoded(false, data)) && Padding(Encoded(false, data)) == 3 * GroupCount(|data|) - |data|
  {
    var s, n := Encoded(false, data), GroupCount(|data|);
    forall i | 0 <= i < n
      ensures Quantum(QuantumAt(s, i)) && Padding(QuantumAt(s, i)) == if i == n - 1 then 3 * n - |data| else 0
    {
      GroupIsSpelt(data, i);
      LastGroup(data, i);
    }
    WellFormedByQuanta(s);
  }

  function Upto(data: seq<byte>, n: nat): (r: nat)
    ensures r <= |data|
  {
    if 3 * n <= |data| then 3 * n else |data|
  }

  lemma OneMoreGroup(data: seq<byte>, n: nat)
    requires 0 < n <= GroupCount(|data|)
    ensures data[..Upto(data, n - 1)] + GroupAt(data, n - 1) == data[..Upto(data, n)]
  {
  }

  /** Quantum `i` of the text spells group `i` of the data. */
  ghost predicate Spelt(s: string, data: seq<byte>, i: nat)
    requires 4 * i + 4 <= |s| && i < GroupCount(|data|)
  {
    Quantum(QuantumAt(s, i)) && DecodeGroup(QuantumAt(s, i)) == GroupAt(data, i)
  }

  lemma DecodeStep(s: string, data: seq<byte>, n: nat)
    requires 0 < n <= GroupCount(|data|) && 4 * n <= |s|
    requires Spelt(s, data, n - 1)
    requires DecodeGroups(s, n - 1) == data[..Upto(data, n - 1)]
    ensures DecodeGroups(s, n) == data[..Upto(data, n)]
  {
    OneMoreGroup(data, n);
  }

  lemma {:induction false} DecodeByGroups(s: string, data: seq<byte>, n: nat)
    requires n <= GroupCount(|data|) && 4 * n <= |s|
    requires forall i | 0 <= i < n :: Spelt(s, data, i)
    ensures DecodeGroups(s, n) == data[..Upto(data, n)]
  {
    if n > 0 {
      DecodeByGroups(s, data, n - 1);
      DecodeStep(s, data, n);
    }
  }

  lemma GroupIsSpelt(data: seq<byte>, i: nat)
    requires i < GroupCount(|data|)
    ensures Spelt(Encoded(false, data), data, i)
  {
    EncodedQuantum(false, data, GroupCount(|data|), i);
    GroupRoundTrip(GroupAt(data, i));
  }

  /** Section 4 of RFC 4648: decoding the encoding of a nonempty byte string gives it back. */
  lemma DecodeOfEncode(data: seq<byte>)
    requires data != []
    ensures WellFormed(Encoded(false, data)) && Decoded(Encoded(false, data)) == data
  {
    EncodedIsWellFormed(data);
    forall i | 0 <= i < GroupCount(|data|) ensures Spelt(Encoded(false, data), data, i) {
      GroupIsSpelt(data, i);
    }
    DecodeByGroups(Encoded(false, data), data, GroupCount(|data|));
  }

  /** The bytes `g` stand at place `3 * i`. */
  ghost predicate Holds(b: seq<byte>, i: nat, g: seq<byte>) {
    3 * i + |g| <= |b| && b[3 * i..3 * i + |g|] == g
  }

  lemma HoldsStill(b: seq<byte>, more: seq<byte>, i: nat, g: seq<byte>)
    requires Holds(b, i, g)
    ensures Holds(b + more, i, g)
  {
    SliceOfFront(b, more, 3 * i, 3 * i + |g|);
  }

  lemma HoldsLast(b: seq<byte>, i: nat, g: seq<byte>)
    requires |b| == 3 * i
    ensures Holds(b + g, i, g)
  {
    SliceOfBack(b, g);
  }

  lemma {:induction false} DecodedGroup(s: string, n: nat, i: nat)
    requires WellFormed(s) && i < n && 4 * n <= |s|
    ensures Holds(DecodeGroups(s, n), i, DecodeGroup(QuantumAt(s, i)))
  {
    if i < n - 1 {
      DecodedGroup(s, n - 1, i);
      HoldsStill(DecodeGroups(s, n - 1), DecodeGroup(QuantumAt(s, n - 1)), i, DecodeGroup(QuantumAt(s, i)));
    } else {
      DecodedSize(s, i);
      HoldsLast(DecodeGroups(s, i), i, DecodeGroup(QuantumAt(s, i)));
    }
  }

  /** The text with the unused low bits of its last sextet cleared. */
  function ClearedText(s: string): string
    requires WellFormed(s)
  {
    QuantumOfText(s, |s| / 4 - 1);
    s[..|s| - 4] + Cleared(QuantumAt(s, |s| / 4 - 1))
  }

  lemma GroupOfDecoded(s: string, i: nat)
    requires WellFormed(s) && 4 * i + 4 <= |s|
    ensures GroupCount(|Decoded(s)|) == |s| / 4
    ensures GroupAt(Decoded(s), i) == DecodeGroup(QuantumAt(s, i))
  {
    DecodedSize(s, |s| / 4);
    DecodedGroup(s, |s| / 4, i);
    QuantumOfText(s, i);
  }

  /** Group `i` of the data is spelt as the text has it. */
  ghost predicate Respelt(s: string, data: seq<byte>, i: nat)
    requires 4 * i + 4 <= |s| && i < GroupCount(|data|)
  {
    EncodeGroup(false, GroupAt(data, i)) == QuantumAt(s, i)
  }

  lemma PlainQuantum(s: string, i: nat)
    requires WellFormed(s) && 4 * i + 4 < |s| && GroupCount(|Decoded(s)|) == |s| / 4
    ensures Respelt(s, Decoded(s), i)
  {
    GroupOfDecoded(s, i);
    QuantumOfText(s, i);
    QuantumRoundTrip(QuantumAt(s, i));
  }

  lemma {:induction false} EncodeByQuanta(s: string, data: seq<byte>, n: nat)
    requires 4 * n <= |s| && n <= GroupCount(|data|)
    requires forall i | 0 <= i < n :: Respelt(s, data, i)
    ensures EncodeGroups(false, data, n) == s[..4 * n]
  {
    if n > 0 {
      EncodeByQuanta(s, data, n - 1);
      assert Respelt(s, data, n - 1);
      assert s[..4 * n] == s[..4 * (n - 1)] + QuantumAt(s, n - 1);
    }
  }

  /** Encoding the decoding of any accepted text gives the text back, but for the bits that no byte uses. */
  lemma EncodeOfDecode(s: string)
    requires WellFormed(s)
    ensures Encoded(false, Decoded(s)) == ClearedText(s)
  {
    var last := |s| / 4 - 1;
    GroupOfDecoded(s, last);
    forall i | 0 <= i < last ensures Respelt(s, Decoded(s), i) {
      PlainQuantum(s, i);
    }
    EncodeByQuanta(s, Decoded(s), last);
    QuantumOfText(s, last);
    QuantumRoundTrip(QuantumAt(s, last));
  }

  /** The buffer of the encoder holds the text and its terminator, with nothing to spare when size mod 3 is 1. */
  lemma BufferSuffices(size: nat)
    ensures 4 * GroupCount(size) + 1 <= size * 4 / 3 + 4
    ensures 4 * GroupCount(size) + 1 == size * 4 / 3 + 4 <==> size % 3 == 1
  {
    var k, r := size / 3, size % 3;
    if r == 0 {
      DivThree(size + 2, k, 2);
      DivThree(size * 4, 4 * k, 0);
    } else {
      DivThree(size + 2, k + 1, r - 1);
      DivThree(size * 4, 4 * k + r, r);
    }
  }

  lemma DivThree(n: nat, q: nat, r: nat)
    requires n == 3 * q + r && r < 3
    ensures n / 3 == q
  {
  }

  // ---------------------------------------------------------------- the decoder

  /** The bits collected from the first `n` characters. */
  function Collected(q: string, n: nat): nat
    requires n <= |q|
  {
    if n == 0 then 0 else Collected(q, n - 1) * 64 + Sextet(q[n - 1])
  }

  function PadsIn(q: string, n: nat): nat
    requires n <= |q|
  {
    if n == 0 then 0 else PadsIn(q, n - 1) + if q[n - 1] == '=' then 1 else 0
  }

  lemma ThreeBytes(x: nat, y: nat, z: nat)
    requires y < 256 && z < 256
    ensures var w := (x * 256 + y) * 256 + z; w % 256 == z && w / 256 % 256 == y && w / 256 / 256 == x
  {
    var w := (x * 256 + y) * 256 + z;
    assert w / 256 == x * 256 + y;
  }

  lemma FourSextets(a: nat, b: nat, c: nat, d: nat)
    requires a < 64 && b < 64 && c < 64 && d < 64
    ensures ((a * 64 + b) * 64 + c) * 64 + d ==
            ((a * 4 + b / 16) * 256 + (b % 16 * 16 + c / 4)) * 256 + (c % 4 * 64 + d)
  {
    assert b == b / 16 * 16 + b % 16 && c == c / 4 * 4 + c % 4;
  }

  lemma CollectedBytes(q: string)
    requires |q| == 4
    ensures var x, g := Collected(q, 4), DecodeGroup(q);
            && x / 256 / 256 == g[0]
            && (Padding(q) < 2 ==> x / 256 % 256 == g[1])
            && (Padding(q) < 1 ==> x % 256 == g[2])
  {
    var a, b, c, d := Sextet(q[0]), Sextet(q[1]), Sextet(q[2]), Sextet(q[3]);
    assert Collected(q, 1) == a && Collected(q, 2) == a * 64 + b && Collected(q, 3) == (a * 64 + b) * 64 + c;
    FourSextets(a, b, c, d);
    ThreeBytes(a * 4 + b / 16, b % 16 * 16 + c / 4, c % 4 * 64 + d);
  }

  lemma PadsAreThePadding(q: string)
    requires |q| == 4 && q[0] != '=' && q[1] != '=' && (q[2] == '=' ==> q[3] == '=')
    ensures PadsIn(q, 4) == Padding(q)
  {
    assert PadsIn(q, 1) == 0 && PadsIn(q, 2) == 0;
  }

  /** decodeQuantum: the first loop. */
  method Collect(q: string) returns (x: nat, padding: nat, valid: bool)
    requires |q| == 4
    ensures valid <==> forall i | 0 <= i < 4 :: Known(q[i])
    ensures valid ==> x == Collected(q, 4) && padding == PadsIn(q, 4)
  {
    x, padding := 0, 0;
    var i := 0;
    while i < 4
      invariant i <= 4 && forall k | 0 <= k < i :: Known(q[k])
      invariant x == Collected(q, i) && padding == PadsIn(q, i)
    {
      if q[i] == '=' {
        x := x * 64;
        padding := padding + 1;
      } else {
        var v := FindValue(q[i]);
        if v == 64 {
          return x, padding, false;
        }
        x := x * 64 + v;
      }
      i := i + 1;
    }
    valid := true;
  }

  /** decodeQuantum; 0 stands for a character outside the alphabet. */
  method DecodeQuantum(dest: array<byte>, pos: nat, q: string) returns (n: nat)
    requires |q| == 4 && q[0] != '=' && q[1] != '=' && (q[2] == '=' ==> q[3] == '=')
    requires pos + 3 - Padding(q) <= dest.Length
    modifies dest
    ensures n == if Quantum(q) then 3 - Padding(q) else 0
    ensures dest[..pos] == old(dest[..pos]) && forall k | 0 <= k < n :: dest[pos + k] == DecodeGroup(q)[k]
  {
    var x, padding, valid := Collect(q);
    if !valid {
      return 0;
    }
    PadsAreThePadding(q);
    CollectedBytes(q);
    if padding < 1 {
      dest[pos + 2] := x % 256;
    }
    x := x / 256;
    if padding < 2 {
      dest[pos + 1] := x % 256;
    }
    x := x / 256;
    dest[pos] := x % 256;
    return 3 - padding;
  }

  /** The first half of Curl_base64_decode: where the padding starts and whether it is all at the end. */
  method MeasurePadding(src: string) returns (padding: nat, shaped: bool)
    requires |src| > 0 && |src| % 4 == 0
    ensures shaped == Shaped(src) && (shaped ==> padding == Padding(src))
  {
    var length := 0;
    while length < |src| && src[length] != '='
      invariant 0 <= length <= |src| && forall i | 0 <= i < length :: src[i] != '='
    {
      length := length + 1;
    }
    padding := 0;
    if length < |src| {
      padding := padding + 1;
      if length + 1 < |src| && src[length + 1] == '=' {
        padding := padding + 1;
      }
    }
    shaped := length + padding == |src|;
  }

  /** Curl_base64_decode. The buffer has room for the bytes and a zero, and every byte of it is written. */
  method Decode(src: string, allocOk: bool) returns (result: Code, out: array?<byte>, outlen: nat)
    ensures result == if !Shaped(src) then BadContentEncoding
                      else if !allocOk then OutOfMemory
                      else if WellFormed(src) then OK else BadContentEncoding
    ensures result == OK ==>
              out != null && fresh(out) && out.Length == outlen + 1 && out[..outlen] == Decoded(src) && out[outlen] == 0
    ensures result != OK ==> out == null && outlen == 0
  {
    out, outlen := null, 0;
    if |src| == 0 || |src| % 4 != 0 {
      return BadContentEncoding, null, 0;
    }
    var padding, shaped := MeasurePadding(src);
    if !shaped {
      return BadContentEncoding, null, 0;
    }
    var numQuantums := |src| / 4;
    var rawlen := numQuantums * 3 - padding;
    if !allocOk {
      return OutOfMemory, null, 0;
    }
    var newstr := new byte[rawlen + 1];
    var pos, ok := DecodeAll(src, newstr);
    if !ok {
      return BadContentEncoding, null, 0;
    }
    newstr[pos] := 0;
    return OK, newstr, rawlen;
  }

  lemma QuantumOfShape(s: string, i: nat)
    requires Shaped(s) && 4 * i + 4 <= |s|
    ensures var q := QuantumAt(s, i);
            && q[0] != '=' && q[1] != '=' && (q[2] == '=' ==> q[3] == '=')
            && Padding(q) == (if 4 * i + 4 == |s| then Padding(s) else 0)
            && (Quantum(q) <==> forall k | 4 * i <= k < 4 * i + 4 :: Known(s[k]))
  {
    var q := QuantumAt(s, i);
    assert forall k | 0 <= k < 4 :: q[k] == s[4 * i + k];
    assert forall k | 4 * i <= k < 4 * i + 4 :: s[k] == q[k - 4 * i];
  }

  /** The state of the loop over the quanta: `i` of them are known and decoded. */
  ghost predicate Read(s: string, i: nat, written: seq<byte>)
    requires Shaped(s)
  {
    && 4 * i <= |s| && (forall k | 0 <= k < 4 * i :: Known(s[k]))
    && written == DecodeGroups(s, i) && |written| == 3 * i - if 4 * i == |s| then Padding(s) else 0
  }

  /** One round of the loop over the quanta. */
  method DecodeNext(src: string, newstr: array<byte>, pos: nat, ghost i: nat, q: string) returns (n: nat)
    requires Shaped(src) && 4 * i + 4 <= |src| && q == QuantumAt(src, i)
    requires newstr.Length == |src| / 4 * 3 - Padding(src) + 1
    requires pos <= newstr.Length && Read(src, i, newstr[..pos])
    modifies newstr
    ensures n == 0 ==> !WellFormed(src)
    ensures n > 0 ==> pos + n < newstr.Length && Read(src, i + 1, newstr[..pos + n])
  {
    ghost var before := newstr[..];
    QuantumOfShape(src, i);
    n := DecodeQuantum(newstr, pos, q);
    if n > 0 {
      FrontGrows(newstr[..], before, pos, DecodeGroup(q));
    }
  }

  lemma AllRead(s: string, written: seq<byte>)
    requires Shaped(s) && Read(s, |s| / 4, written)
    ensures WellFormed(s) && written == Decoded(s) && |written| == |s| / 4 * 3 - Padding(s)
  {
  }

  /** The loop over the quanta. */
  method DecodeAll(src: string, newstr: array<byte>) returns (pos: nat, ok: bool)
    requires Shaped(src) && newstr.Length == |src| / 4 * 3 - Padding(src) + 1
    modifies newstr
    ensures ok <==> WellFormed(src)
    ensures ok ==> pos == newstr.Length - 1 && newstr[..pos] == Decoded(src)
  {
    pos := 0;
    var i: nat := 0;
    while i < |src| / 4
      invariant i <= |src| / 4 && pos <= newstr.Length && Read(src, i, newstr[..pos])
    {
      var n := DecodeNext(src, newstr, pos, i, QuantumAt(src, i));
      if n == 0 {
        return pos, false;
      }
      pos := pos + n;
      i := i + 1;
    }
    AllRead(src, newstr[..pos]);
    ok := true;
  }

  // ---------------------------------------------------------------- the encoder

  /** base64_encode: up to three bytes, filled up with zeros. */
  method ReadGroup(data: seq<byte>, at: nat) returns (ibuf: seq<byte>, inputparts: nat)
    requires at < |data|
    ensures |ibuf| == 3 && inputparts == if at + 3 <= |data| then 3 else |data| - at
    ensures ibuf[..inputparts] == data[at..at + inputparts] && forall k | inputparts <= k < 3 :: ibuf[k] == 0
  {
    ibuf, inputparts := [], 0;
    var i := 0;
    while i < 3
      invariant 0 <= i <= 3 && |ibuf| == i && inputparts == if at + i <= |data| then i else |data| - at
      invariant forall k | 0 <= k < i :: ibuf[k] == if k < inputparts then data[at + k] else 0
    {
      if at + inputparts < |data| {
        ibuf := ibuf + [data[at + inputparts]];
        inputparts := inputparts + 1;
      } else {
        ibuf := ibuf + [0];
      }
      i := i + 1;
    }
  }

  /** base64_encode: the four sextets of the group, printed with a terminator. */
  method PrintGroup(url: bool, out: array<char>, pos: nat, ibuf: seq<byte>, inputparts: nat)
    requires |ibuf| == 3 && 1 <= inputparts <= 3 && forall k | inputparts <= k < 3 :: ibuf[k] == 0
    requires pos + 5 <= out.Length
    modifies out
    ensures out[..pos] == old(out[..pos]) && out[pos + 4] == '\0'
    ensures forall k | 0 <= k < 4 :: out[pos + k] == EncodeGroup(url, ibuf[..inputparts])[k]
  {
    var obuf0, obuf1 := ibuf[0] / 4, ibuf[0] % 4 * 16 + ibuf[1] / 16;
    var obuf2, obuf3 := ibuf[1] % 16 * 4 + ibuf[2] / 64, ibuf[2] % 64;
    var text;
    match inputparts {
      case 1 => text := [Symbol(url, obuf0), Symbol(url, obuf1), '=', '='];
      case 2 => text := [Symbol(url, obuf0), Symbol(url, obuf1), Symbol(url, obuf2), '='];
      case _ => text := [Symbol(url, obuf0), Symbol(url, obuf1), Symbol(url, obuf2), Symbol(url, obuf3)];
    }
    out[pos], out[pos + 1], out[pos + 2], out[pos + 3], out[pos + 4] := text[0], text[1], text[2], text[3], '\0';
  }

  lemma NoneLeft(data: seq<byte>, n: nat)
    requires n <= GroupCount(|data|)
    ensures Upto(data, n) == |data| <==> n == GroupCount(|data|)
  {
  }

  lemma GroupStart(data: seq<byte>, n: nat)
    requires n < GroupCount(|data|)
    ensures var at, g := Upto(data, n), GroupAt(data, n);
            && g == data[at..at + |g|] && Upto(data, n + 1) == at + |g|
            && |g| == (if at + 3 <= |data| then 3 else |data| - at)
  {
  }

  /** The state of the loop over the groups: `n` of them are read and printed. */
  ghost predicate Printed(url: bool, data: seq<byte>, n: nat, done: nat, text: string) {
    n <= GroupCount(|data|) && done == Upto(data, n) && text == EncodeGroups(url, data, n)
  }

  /** One round of the loop over the groups. */
  method EncodeNext(url: bool, data: seq<byte>, out: array<char>, pos: nat, done: nat, ghost n: nat) returns (read: nat)
    requires pos <= out.Length && Printed(url, data, n, done, out[..pos]) && done < |data|
    requires 4 * GroupCount(|data|) < out.Length
    modifies out
    ensures pos + 4 < out.Length && Printed(url, data, n + 1, done + read, out[..pos + 4])
  {
    ghost var before := out[..];
    NoneLeft(data, n);
    GroupStart(data, n);
    ghost var g := GroupAt(data, n);
    var ibuf, inputparts := ReadGroup(data, done);
    assert ibuf[..inputparts] == g;
    PrintGroup(url, out, pos, ibuf, inputparts);
    FrontGrows(out[..], before, pos, EncodeGroup(url, g));
    read := inputparts;
  }

  lemma AllPrinted(url: bool, data: seq<byte>, n: nat, done: nat, text: string)
    requires Printed(url, data, n, done, text) && done >= |data|
    ensures text == Encoded(url, data) && |text| == 4 * GroupCount(|data|)
  {
    NoneLeft(data, n);
  }

  /** The loop over the groups. */
  method EncodeAll(url: bool, data: seq<byte>, out: array<char>) returns (pos: nat)
    requires 4 * GroupCount(|data|) < out.Length
    modifies out
    ensures pos < out.Length && out[..pos] == Encoded(url, data)
  {
    var done: nat := 0;
    ghost var n: nat := 0;
    pos := 0;
    while done < |data|
      invariant pos < out.Length && Printed(url, data, n, done, out[..pos])
      decreases GroupCount(|data|) - n
    {
      var read := EncodeNext(url, data, out, pos, done, n);
      pos, done, n := pos + 4, done + read, n + 1;
    }
    AllPrinted(url, data, n, done, out[..pos]);
  }

  /** base64_encode. The buffer has insize * 4 / 3 + 4 characters; all writes stay inside. */
  method Encode(url: bool, buff: seq<byte>, insize: nat, allocOk: bool)
    returns (result: Code, out: array?<char>, outlen: nat)
    requires insize <= |buff| && (insize == 0 ==> 0 in buff)
    ensures result == if allocOk then OK else OutOfMemory
    ensures allocOk ==>
              && out != null && fresh(out) && out.Length == |Input(buff, insize)| * 4 / 3 + 4 && outlen < out.Length
              && out[..outlen] == Encoded(url, Input(buff, insize)) && out[outlen] == '\0'
  {
    if !allocOk {
      return OutOfMemory, null, 0;
    }
    var data := Input(buff, insize);
    BufferSuffices(|data|);
    var output := new char[|data| * 4 / 3 + 4];
    var pos := EncodeAll(url, data, output);
    output[pos] := '\0';
    return OK, output, pos;
  }

  // ---------------------------------------------------------------- base64url

  /** The two characters in which the alphabets differ. */
  function UrlChar(c: char): char {
    if c == '+' then '-' else if c == '/' then '_' else c
  }

  function UrlText(s: string): string {
    seq(|s|, i requires 0 <= i < |s| => UrlChar(s[i]))
  }

  lemma UrlGroup(g: Group)
    ensures EncodeGroup(true, g) == UrlText(EncodeGroup(false, g))
  {
  }

  lemma {:induction false} UrlGroups(data: seq<byte>, n: nat)
    requires n <= GroupCount(|data|)
    ensures EncodeGroups(true, data, n) == UrlText(EncodeGroups(false, data, n))
  {
    if n > 0 {
      UrlGroups(data, n - 1);
      UrlGroup(GroupAt(data, n - 1));
    }
  }

  /** The base64url text is the base64 text with '-' for '+' and '_' for '/'. */
  lemma UrlEncodingIs(data: seq<byte>)
    ensures |Encoded(true, data)| == |Encoded(false, data)|
    ensures forall i | 0 <= i < |Encoded(true, data)| ::
              var c := Encoded(false, data)[i];
              Encoded(true, data)[i] == if c == '+' then '-' else if c == '/' then '_' else c
  {
    UrlGroups(data, GroupCount(|data|));
  }

  /** The test vectors "f", "fo" and "foo" of section 10 of RFC 4648, and a group with the last two symbols. */
  lemma KnownVectors()
    ensures EncodeGroup(false, [102]) == "Zg==" && EncodeGroup(false, [102, 111]) == "Zm8="
    ensures EncodeGroup(false, [102, 111, 111]) == "Zm9v" && EncodeGroup(false, [251, 255, 52]) == "+/80"
    ensures DecodeGroup("Zm9v") == [102, 111, 111] && DecodeGroup("+/80") == [251, 255, 52]
  {
    assert Symbol(false, 25) == 'Z' && Symbol(false, 38) == 'm' && Symbol(false, 61) == '9';
  }
}
