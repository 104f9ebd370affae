/**
 Percent-encoding (escape.c): curl_easy_escape, Curl_urldecode and the round trip (sections 2.1 and 2.3
 of RFC 3986).
 */
module Escape {
  import opened Basics

  datatype Code = OK | UrlMalformat | OutOfMemory

  const PERCENT: byte := 37

  // ---------------------------------------------------------------- characters

  predicate Between(c: byte, lo: char, hi: char) {
    lo as int <= c as int <= hi as int
  }

  /** Curl_isunreserved. */
  predicate Unreserved(c: byte) {
    || Between(c, '0', '9') || Between(c, 'a', 'z') || Between(c, 'A', 'Z')
    || c as int in {'-' as int, '.' as int, '_' as int, '~' as int}
  }

  /** A digit as printed by %02X. */
  function HexDigit(v: nat): byte
    requires v < 16
  {
    if v < 10 then '0' as int + v else 'A' as int + v - 10
  }

  /** ISXDIGIT. */
  predicate IsHex(c: byte) {
    Between(c, '0', '9') || Between(c, 'a', 'f') || Between(c, 'A', 'F')
  }

  /** A digit as read by strtoul. */
  function HexValue(c: byte): (v: nat)
    requires IsHex(c)
    ensures v < 16
  {
    if c <= '9' as int then c as int - '0' as int
    else if c >= 'a' as int then c as int - 'a' as int + 10
    else c as int - 'A' as int + 10
  }

  lemma HexRoundTrip(v: nat)
    requires v < 16
    ensures IsHex(HexDigit(v)) && HexValue(HexDigit(v)) == v
  {
  }

  // ---------------------------------------------------------------- escaping

  function EscapeByte(c: byte): (r: seq<byte>)
    ensures |r| == if Unreserved(c) then 1 else 3
  {
    if Unreserved(c) then [c] else [PERCENT, HexDigit(c / 16), HexDigit(c % 16)]
  }

  /** The text for the first `n` bytes. */
  function Escaped(s: seq<byte>, n: nat): (r: seq<byte>)
    requires n <= |s|
    ensures n <= |r| <= 3 * n
  {
    if n == 0 then [] else Escaped(s, n - 1) + EscapeByte(s[n - 1])
  }

  /** How often the buffer must double: the text and its terminator never take more than four times the first size. */
  function Doublings(s: seq<byte>): (k: nat)
    ensures k <= 2
  {
    var size := |Escaped(s, |s|)| + 1;
    if size <= |s| + 1 then 0 else if size <= 2 * (|s| + 1) then 1 else 2
  }

  /** realloc to twice the size. */
  method Double(ns: array<byte>) returns (r: array<byte>)
    ensures fresh(r) && r.Length == 2 * ns.Length && r[..ns.Length] == ns[..]
  {
    r := new byte[2 * ns.Length];
    var i := 0;
    while i < ns.Length
      invariant 0 <= i <= ns.Length && r[..i] == ns[..i]
    {
      r[i] := ns[i];
      i := i + 1;
    }
  }

  lemma {:induction false} EscapedGrows(s: seq<byte>, i: nat, n: nat)
    requires i <= n <= |s|
    ensures Escaped(s, i) <= Escaped(s, n) && |Escaped(s, i)| - i <= |Escaped(s, n)| - n
  {
    if i < n {
      EscapedGrows(s, i, n - 1);
    }
  }

  /** snprintf of "%%%02X": four characters with the terminator. */
  method PrintByte(ns: array<byte>, at: nat, c: byte)
    requires at + 4 <= ns.Length && !Unreserved(c)
    modifies ns
    ensures ns[..at + 3] == old(ns[..at]) + EscapeByte(c)
  {
    ns[at], ns[at + 1], ns[at + 2], ns[at + 3] := PERCENT, HexDigit(c / 16), HexDigit(c % 16), 0;
  }

  /** The buffer has been doubled `k` times, each time because `needed` exceeded it. */
  ghost predicate Grown(size: nat, k: nat, alloc: nat, needed: nat) {
    if k == 0 then alloc == size
    else if k == 1 then alloc == 2 * size && needed > size
    else k == 2 && alloc == 4 * size && needed > 2 * size
  }

  lemma GrownOn(s: seq<byte>, k: nat, alloc: nat, needed: nat, more: nat)
    requires Grown(|s| + 1, k, alloc, needed) && needed <= more <= |Escaped(s, |s|)| + 1
    ensures more <= alloc ==> Grown(|s| + 1, k, alloc, more)
    ensures more > alloc ==> Grown(|s| + 1, k + 1, 2 * alloc, more) && Doublings(s) > k
    ensures more == |Escaped(s, |s|)| + 1 <= alloc ==> Doublings(s) == k
  {
  }

  /** One byte of the loop: room for it is made by at most one doubling. */
  method EscapeNext(ns: array<byte>, strindex: nat, c: byte, newlen: nat, left: nat)
    returns (next: array?<byte>, at: nat, len: nat, rest: nat)
    requires 2 <= newlen <= ns.Length && strindex + 2 <= newlen
    modifies ns
    ensures len == newlen + |EscapeByte(c)| - 1
    ensures next == null <==> len > ns.Length && left == 0
    ensures next != null ==>
              && (next == ns || fresh(next)) && at == strindex + |EscapeByte(c)|
              && next.Length == (if len > ns.Length then 2 * ns.Length else ns.Length) >= len
              && rest == (if len > ns.Length then left - 1 else left)
              && next[..at] == old(ns[..strindex]) + EscapeByte(c)
  {
    next, at, len, rest := ns, strindex, newlen, left;
    if Unreserved(c) {
      next[at] := c;
      at := at + 1;
    } else {
      len := len + 2;
      if len > ns.Length {
        if left == 0 {
          return null, at, len, left;
        }
        next := Double(ns);
        rest := left - 1;
      }
      assert next[..at] == old(ns[..strindex]);
      PrintByte(next, at, c);
      at := at + 3;
    }
  }

  /** The state of the loop before byte `i`: what is written, and that it fits with the rest still to come. */
  ghost predicate Halfway(s: seq<byte>, i: nat, written: seq<byte>, alloc: nat, newlen: nat, doublings: int) {
    && i <= |s| && written == Escaped(s, i) && newlen == |written| + (|s| - i) + 1 <= alloc
    && doublings >= 0 && Grown(|s| + 1, doublings, alloc, newlen)
  }

  lemma HalfwayOn(s: seq<byte>, i: nat, alloc: nat, newlen: nat, k: nat)
    requires i < |s| && Halfway(s, i, Escaped(s, i), alloc, newlen, k)
    ensures var len := newlen + |EscapeByte(s[i])| - 1;
            if len <= alloc then Halfway(s, i + 1, Escaped(s, i + 1), alloc, len, k)
            else Halfway(s, i + 1, Escaped(s, i + 1), 2 * alloc, len, k + 1) && Doublings(s) > k
  {
    EscapedGrows(s, i + 1, |s|);
    GrownOn(s, k, alloc, newlen, newlen + |EscapeByte(s[i])| - 1);
  }

  /** One round of the loop. */
  method EscapeRound(ns: array<byte>, s: seq<byte>, i: nat, strindex: nat, newlen: nat, left: nat, ghost reallocs: nat)
    returns (next: array?<byte>, at: nat, len: nat, rest: nat)
    requires i < |s| && strindex <= ns.Length && left <= reallocs
    requires Halfway(s, i, ns[..strindex], ns.Length, newlen, reallocs - left)
    modifies ns
    ensures next == null ==> Doublings(s) > reallocs
    ensures next != null ==>
              && (next == ns || fresh(next)) && at <= next.Length && rest <= reallocs
              && Halfway(s, i + 1, next[..at], next.Length, len, reallocs - rest)
  {
    HalfwayOn(s, i, ns.Length, newlen, reallocs - left);
    next, at, len, rest := EscapeNext(ns, strindex, s[i], newlen, left);
  }

  lemma HalfwayEnds(s: seq<byte>, written: seq<byte>, alloc: nat, newlen: nat, k: nat)
    requires Halfway(s, |s|, written, alloc, newlen, k)
    ensures written == Escaped(s, |s|) && |written| < alloc && Doublings(s) == k
  {
    GrownOn(s, k, alloc, newlen, newlen);
  }

  /** curl_easy_escape, when the first allocation and then `reallocs` more succeed. */
  method EasyEscape(buff: seq<byte>, inlength: nat, allocOk: bool, reallocs: nat)
    returns (out: array?<byte>, strindex: nat)
    requires inlength <= |buff| && (inlength == 0 ==> 0 in buff)
    ensures out != null <==> allocOk && Doublings(Input(buff, inlength)) <= reallocs
    ensures out != null ==>
              var s := Input(buff, inlength);
              strindex < out.Length && out[..strindex] == Escaped(s, |s|) && out[strindex] == 0
  {
    if !allocOk {
      return null, 0;
    }
    var s := Input(buff, inlength);
    var ns := new byte[|s| + 1];
    var newlen: nat, left: nat, i: nat := |s| + 1, reallocs, 0;
    strindex := 0;
    while i < |s|
      invariant fresh(ns) && i <= |s| && strindex <= ns.Length && left <= reallocs
      invariant Halfway(s, i, ns[..strindex], ns.Length, newlen, reallocs - left)
    {
      var next;
      next, strindex, newlen, left := EscapeRound(ns, s, i, strindex, newlen, left, reallocs);
      if next == null {
        return null, 0;
      }
      ns, i := next, i + 1;
    }
    HalfwayEnds(s, ns[..strindex], ns.Length, newlen, reallocs - left);
    ns[strindex] := 0;
    return ns, strindex;
  }

  // ---------------------------------------------------------------- unescaping

  /** A percent sign and two hexadecimal digits. */
  predicate IsTriplet(t: seq<byte>, i: nat) {
    i + 2 < |t| && t[i] == PERCENT && IsHex(t[i + 1]) && IsHex(t[i + 2])
  }

  /** The byte that starts at `i`. */
  function ByteAt(t: seq<byte>, i: nat): byte
    requires i < |t|
  {
    if IsTriplet(t, i) then HexValue(t[i + 1]) * 16 + HexValue(t[i + 2]) else t[i]
  }

  /** Where the next one starts. */
  function Next(t: seq<byte>, i: nat): (j: nat)
    requires i < |t|
    ensures i < j <= |t|
  {
    if IsTriplet(t, i) then i + 3 else i + 1
  }

  /** The bytes from `i` on, after `acc`; a control character may be refused. */
  function Unescape(t: seq<byte>, i: nat, acc: seq<byte>, rejectCtrl: bool): Option<seq<byte>>
    requires i <= |t|
    decreases |t| - i
  {
    if i == |t| then Some(acc)
    else if rejectCtrl && ByteAt(t, i) < 0x20 then None
    else Unescape(t, Next(t, i), acc + [ByteAt(t, i)], rejectCtrl)
  }

  /** Curl_urldecode; the buffer has one byte more than the text. */
  method UrlDecode(text: seq<byte>, length: nat, rejectCtrl: bool, allocOk: bool)
    returns (result: Code, out: array?<byte>, olen: nat)
    requires length <= |text| && (length == 0 ==> 0 in text)
    ensures var t := Input(text, length);
            result == if !allocOk then OutOfMemory
                      else if Unescape(t, 0, [], rejectCtrl).None? then UrlMalformat else OK
    ensures result == OK ==>
              var t := Input(text, length);
              && out != null && fresh(out) && out.Length == |t| + 1 && olen <= |t|
              && Unescape(t, 0, [], rejectCtrl) == Some(out[..olen]) && out[olen] == 0
  {
    if !allocOk {
      return OutOfMemory, null, 0;
    }
    var t := Input(text, length);
    var ns := new byte[|t| + 1];
    var strindex: nat, i: nat := 0, 0;
    while i < |t|
      invariant strindex <= i <= |t|
      invariant Unescape(t, i, ns[..strindex], rejectCtrl) == Unescape(t, 0, [], rejectCtrl)
    {
      var c := t[i];
      var at := i;
      if c == PERCENT && |t| - i > 2 && IsHex(t[i + 1]) && IsHex(t[i + 2]) {
        c := HexValue(t[i + 1]) * 16 + HexValue(t[i + 2]);
        at := at + 2;
      }
      if rejectCtrl && c < 0x20 {
        return UrlMalformat, null, 0;
      }
      ghost var before := ns[..strindex];
      ns[strindex] := c;
      assert ns[..strindex + 1] == before + [c];
      strindex, i := strindex + 1, at + 1;
    }
    ns[strindex] := 0;
    return OK, ns, strindex;
  }

  // ---------------------------------------------------------------- the round trip

  lemma EscapedAt(s: seq<byte>, i: nat)
    requires i < |s|
    ensures var t, at := Escaped(s, |s|), |Escaped(s, i)|;
            && at + |EscapeByte(s[i])| == |Escaped(s, i + 1)| <= |t|
            && forall k | 0 <= k < |EscapeByte(s[i])| :: t[at + k] == EscapeByte(s[i])[k]
  {
    EscapedGrows(s, i + 1, |s|);
    var t, u := Escaped(s, |s|), Escaped(s, i + 1);
    assert forall k | 0 <= k < |u| :: t[k] == u[k];
  }

  lemma TripletReads(t: seq<byte>, at: nat, c: byte)
    requires at + 2 < |t| && t[at] == PERCENT && t[at + 1] == HexDigit(c / 16) && t[at + 2] == HexDigit(c % 16)
    ensures ByteAt(t, at) == c && Next(t, at) == at + 3
  {
    HexRoundTrip(c / 16);
    HexRoundTrip(c % 16);
  }

  lemma ReadBack(s: seq<byte>, i: nat)
    requires i < |s|
    ensures var t, at := Escaped(s, |s|), |Escaped(s, i)|;
            at < |t| && ByteAt(t, at) == s[i] && Next(t, at) == |Escaped(s, i + 1)|
  {
    var c := s[i];
    var t, at := Escaped(s, |s|), |Escaped(s, i)|;
    EscapedAt(s, i);
    assert t[at] == EscapeByte(c)[0];
    if !Unreserved(c) {
      assert t[at + 1] == EscapeByte(c)[1] && t[at + 2] == EscapeByte(c)[2];
      TripletReads(t, at, c);
    }
  }

  lemma DecodeStep(s: seq<byte>, i: nat, rejectCtrl: bool)
    requires i < |s| && |Escaped(s, i)| < |Escaped(s, |s|)| && |Escaped(s, i + 1)| <= |Escaped(s, |s|)|
    ensures var t := Escaped(s, |s|);
            Unescape(t, |Escaped(s, i)|, s[..i], rejectCtrl) ==
              if rejectCtrl && s[i] < 0x20 then None
              else Unescape(t, |Escaped(s, i + 1)|, s[..i + 1], rejectCtrl)
  {
    ReadBack(s, i);
    assert s[..i + 1] == s[..i] + [s[i]];
  }

  predicate NoControls(s: seq<byte>, i: nat) {
    forall k | i <= k < |s| :: s[k] >= 0x20
  }

  /** From any place between two bytes, decoding goes on with the rest of the string. */
  lemma {:induction false} DecodeRest(s: seq<byte>, i: nat, rejectCtrl: bool)
    requires i <= |s|
    ensures |Escaped(s, i)| <= |Escaped(s, |s|)|
    ensures Unescape(Escaped(s, |s|), |Escaped(s, i)|, s[..i], rejectCtrl) ==
              if rejectCtrl && !NoControls(s, i) then None else Some(s)
    decreases |s| - i
  {
    if i == |s| {
      assert s[..i] == s;
    } else {
      EscapedGrows(s, i, |s|);
      EscapedAt(s, i);
      DecodeStep(s, i, rejectCtrl);
      DecodeRest(s, i + 1, rejectCtrl);
      assert NoControls(s, i) <==> s[i] >= 0x20 && NoControls(s, i + 1);
    }
  }

  /** Decoding what was encoded gives every byte string back; with control rejection, exactly those without controls. */
  lemma DecodeOfEscape(s: seq<byte>, rejectCtrl: bool)
    ensures Unescape(Escaped(s, |s|), 0, [], rejectCtrl) == if rejectCtrl && !NoControls(s, 0) then None else Some(s)
  {
    DecodeRest(s, 0, rejectCtrl);
  }

  /** The encoding is made of unreserved characters and triplets alone, and passes through C strings. */
  lemma {:induction false} EscapedAlphabet(s: seq<byte>, n: nat)
    requires n <= |s|
    ensures forall k | 0 <= k < |Escaped(s, n)| :: Unreserved(Escaped(s, n)[k]) || Escaped(s, n)[k] == PERCENT
    ensures 0 !in Escaped(s, n)
  {
    if n > 0 {
      EscapedAlphabet(s, n - 1);
      var c := s[n - 1];
      assert forall k | 0 <= k < |EscapeByte(c)| :: Unreserved(EscapeByte(c)[k]) || EscapeByte(c)[k] == PERCENT;
    }
  }

  /** Rejecting controls only refuses texts; it never changes what the others mean. */
  lemma {:induction false} RejectionIsAFilter(t: seq<byte>, i: nat, acc: seq<byte>)
    requires i <= |t|
    ensures var all := Unescape(t, i, acc, false);
            && all.Some? && acc <= all.value
            && Unescape(t, i, acc, true) == if NoControls(all.value, |acc|) then all else None
    decreases |t| - i
  {
    if i < |t| {
      var c := ByteAt(t, i);
      RejectionIsAFilter(t, Next(t, i), acc + [c]);
      var all := Unescape(t, i, acc, false).value;
      assert (acc + [c])[|acc|] == all[|acc|];
      assert NoControls(all, |acc|) <==> c >= 0x20 && NoControls(all, |acc| + 1);
      assert acc == (acc + [c])[..|acc|];
    }
  }

  // ---------------------------------------------------------------- either case of the digits

  /** The same hexadecimal digit, in either case. */
  predicate SameDigit(a: byte, b: byte) {
    IsHex(a) && (a == b || (Between(a, 'a', 'f') && b == a - 32) || (Between(b, 'a', 'f') && a == b - 32))
  }

  /** From `i` on the texts differ in the case of digits in triplets only. */
  predicate SameButCase(t: seq<byte>, u: seq<byte>, i: nat)
    requires |t| == |u|
    decreases |t| - i
  {
    if i >= |t| then true
    else if IsTriplet(t, i) then
      u[i] == PERCENT && SameDigit(t[i + 1], u[i + 1]) && SameDigit(t[i + 2], u[i + 2]) && SameButCase(t, u, i + 3)
    else
      u[i] == t[i] && !IsTriplet(u, i) && SameButCase(t, u, i + 1)
  }

  /** Upper-case and lower-case digits mean the same. */
  lemma {:induction false} CaseIsIrrelevant(t: seq<byte>, u: seq<byte>, i: nat, acc: seq<byte>, rejectCtrl: bool)
    requires |t| == |u| && i <= |t| && SameButCase(t, u, i)
    ensures Unescape(t, i, acc, rejectCtrl) == Unescape(u, i, acc, rejectCtrl)
    decreases |t| - i
  {
    if i < |t| {
      assert ByteAt(t, i) == ByteAt(u, i) && Next(t, i) == Next(u, i);
      CaseIsIrrelevant(t, u, Next(t, i), acc + [ByteAt(t, i)], rejectCtrl);
    }
  }

  lemma OneTriplet(hi: byte, lo: byte)
    requires IsHex(hi) && IsHex(lo)
    ensures var c := HexValue(hi) * 16 + HexValue(lo);
            Unescape([PERCENT, hi, lo], 0, [], true) == if c < 0x20 then None else Some([c])
  {
    var t, c := [PERCENT, hi, lo], HexValue(hi) * 16 + HexValue(lo);
    assert IsTriplet(t, 0) && ByteAt(t, 0) == c && Next(t, 0) == 3;
    assert [] + [c] == [c];
    assert Unescape(t, 3, [c], true) == Some([c]);
  }

  /** "%2F", "%2f" and "%aD". */
  lemma KnownTriplets()
    ensures Unescape([37, 50, 70], 0, [], true) == Some([47]) && Unescape([37, 50, 102], 0, [], true) == Some([47])
    ensures Unescape([37, 97, 68], 0, [], true) == Some([173]) && Escaped([47], 1) == [37, 50, 70]
  {
    OneTriplet(50, 70);
    OneTriplet(50, 102);
    OneTriplet(97, 68);
    assert Escaped([47], 0) == [];
  }

  /** Digits, letters and "-._~" pass unchanged, and nothing else does (section 2.3 of RFC 3986). */
  lemma UnreservedAre(c: byte)
    ensures Escaped([c], 1) == [c] <==> 48 <= c <= 57 || 65 <= c <= 90 || 97 <= c <= 122 || c in {45, 46, 95, 126}
  {
    assert Escaped([c], 0) == [] && Escaped([c], 1) == [] + EscapeByte(c) == EscapeByte(c);
  }
}
