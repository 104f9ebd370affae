/**
 The NTLM type-3 message (curl_ntlm_msgs.c): a fixed buffer with a header of lengths and offsets and
 the fields behind it, read back with the little-endian readers of curl_endian.c.
 */
module NtlmMsgs {
  import opened Basics
  import Base64

  const BUFSIZE: nat := 1024
  const HEADER: nat := 64
  const LMLEN: nat := 24

  datatype Code = OK | OutOfMemory | OutOfBounds

  // ---------------------------------------------------------------- numbers

  /** SHORTPAIR. */
  function ShortPair(x: nat): seq<byte> {
    [x % 256, x / 256 % 256]
  }

  /** LONGQUARTET. */
  function LongQuartet(x: nat): seq<byte> {
    [x % 256, x / 256 % 256, x / 65536 % 256, x / 16777216 % 256]
  }

  /** Curl_read16_le. */
  function Read16(b: seq<byte>, at: nat): (x: nat)
    requires at + 2 <= |b|
    ensures x < 65536
  {
    b[at] as int + b[at + 1] as int * 256
  }

  /** Curl_read32_le. */
  function Read32(b: seq<byte>, at: nat): (x: nat)
    requires at + 4 <= |b|
  {
    b[at] as int + b[at + 1] as int * 256 + b[at + 2] as int * 65536 + b[at + 3] as int * 16777216
  }

  lemma ReadShortPair(x: nat)
    requires x < 65536
    ensures x / 256 < 256 && x % 256 + x / 256 % 256 * 256 == x
  {
  }

  lemma ReadLongQuartet(x: nat)
    requires x < 0x1_0000_0000
    ensures Read32(LongQuartet(x), 0) == x
  {
    var y := x / 256;
    var z := y / 256;
    assert x / 65536 == z && x / 16777216 == z / 256;
    assert z / 256 % 256 == z / 256;
  }

  // ---------------------------------------------------------------- the user name

  /** strchr. */
  function Find(s: seq<byte>, c: byte): (r: Option<nat>)
    ensures r.None? ==> c !in s
    ensures r.Some? ==> r.value < |s| && s[r.value] == c && c !in s[..r.value]
  {
    if s == [] then None
    else if s[0] == c then Some(0)
    else
      var r := Find(s[1..], c);
      if r.None? then None else Some(r.value + 1)
  }

  /** Domain and user of "domain\user" or "domain/user"; a backslash goes before a slash. */
  function SplitName(userp: seq<byte>): (r: (seq<byte>, seq<byte>))
    ensures var slash, back := '/' as int, '\\' as int;
            if back in userp then userp == r.0 + [back] + r.1 && back !in r.0
            else if slash in userp then userp == r.0 + [slash] + r.1 && slash !in r.0
            else r == ([], userp)
  {
    var back := Find(userp, '\\' as int);
    var at := if back.Some? then back else Find(userp, '/' as int);
    if at.Some? then (userp[..at.value], userp[at.value + 1..]) else ([], userp)
  }

  /** A string as unicodecpy stores it. */
  function Wide(s: seq<byte>): (r: seq<byte>)
    ensures |r| == 2 * |s|
  {
    if s == [] then [] else Wide(s[..|s| - 1]) + [s[|s| - 1], 0]
  }

  /** NTLMFLAG_NEGOTIATE_UNICODE is the lowest bit. */
  predicate IsUnicode(flags: nat) {
    flags % 2 == 1
  }

  function Stored(flags: nat, s: seq<byte>): seq<byte> {
    if IsUnicode(flags) then Wide(s) else s
  }

  // ---------------------------------------------------------------- the layout

  /** The fields in the order of the message, as they are stored. */
  datatype Fields = Fields(lm: seq<byte>, nt: seq<byte>, domain: seq<byte>, user: seq<byte>, host: seq<byte>)
  {
    function At(k: nat): seq<byte> {
      if k == 0 then lm else if k == 1 then nt else if k == 2 then domain else if k == 3 then user else host
    }

    /** Where field `k` starts. */
    function Offset(k: nat): nat {
      if k == 0 then HEADER else Offset(k - 1) + |At(k - 1)|
    }
  }

  /** A security buffer of the header: length, allocated space, offset, two zeros. */
  function SecBuf(len: nat, off: nat): (r: seq<byte>)
    ensures |r| == 8
  {
    ShortPair(len) + ShortPair(len) + ShortPair(off) + [0, 0]
  }

  /** NTLMSSP_SIGNATURE with its zero, and the type. */
  const START: seq<byte> := [0x4e, 0x54, 0x4c, 0x4d, 0x53, 0x53, 0x50, 0, 3, 0, 0, 0]

  /** The first `n` security buffers. */
  function Buffers(lens: seq<nat>, offs: seq<nat>, n: nat): (r: seq<byte>)
    requires n <= |lens| == |offs|
    ensures |r| == 8 * n
  {
    if n == 0 then [] else Buffers(lens, offs, n - 1) + SecBuf(lens[n - 1], offs[n - 1])
  }

  function Lengths(f: Fields): seq<nat> {
    [|f.lm|, |f.nt|, |f.domain|, |f.user|, |f.host|]
  }

  function Offsets(f: Fields): seq<nat> {
    [f.Offset(0), f.Offset(1), f.Offset(2), f.Offset(3), f.Offset(4)]
  }

  function Header(flags: nat, f: Fields): (r: seq<byte>)
    ensures |r| == HEADER
  {
    START + Buffers(Lengths(f), Offsets(f), 5) + [0, 0, 0, 0, 0, 0, 0, 0] + LongQuartet(flags)
  }

  /** The first `n` fields, one behind the other. */
  function Data(f: Fields, n: nat): seq<byte> {
    if n == 0 then [] else Data(f, n - 1) + f.At(n - 1)
  }

  /** The header describes `f`; `g` is what was copied. */
  function Message(flags: nat, f: Fields, g: Fields): seq<byte> {
    Header(flags, f) + Data(g, 5)
  }

  /** A reader's view of field `k`: its bytes, if its security buffer points into the message. */
  function ReadField(msg: seq<byte>, k: nat): Option<seq<byte>>
    requires k < 5 && |msg| >= HEADER
  {
    var len, off := Read16(msg, 12 + 8 * k), Read32(msg, 16 + 8 * k);
    if off + len <= |msg| then Some(msg[off..off + len]) else None
  }

  // ---------------------------------------------------------------- assembling

  /** memcpy. */
  method MemCpy(buf: array<byte>, at: nat, src: seq<byte>)
    requires at + |src| <= buf.Length
    modifies buf
    ensures buf[..at + |src|] == old(buf[..at]) + src
  {
    var i := 0;
    while i < |src|
      invariant 0 <= i <= |src| && buf[..at + i] == old(buf[..at]) + src[..i]
    {
      buf[at + i] := src[i];
      i := i + 1;
    }
    assert src[..i] == src;
  }

  /** unicodecpy. */
  method UnicodeCpy(buf: array<byte>, at: nat, src: seq<byte>)
    requires at + 2 * |src| <= buf.Length
    modifies buf
    ensures buf[..at + 2 * |src|] == old(buf[..at]) + Wide(src)
  {
    var i := 0;
    while i < |src|
      invariant 0 <= i <= |src| && buf[..at + 2 * i] == old(buf[..at]) + Wide(src[..i])
    {
      ghost var before := buf[..at + 2 * i];
      buf[at + 2 * i], buf[at + 2 * i + 1] := src[i], 0;
      assert buf[..at + 2 * i + 2] == before + [src[i], 0];
      assert src[..i + 1][..i] == src[..i];
      i := i + 1;
    }
    assert src[..i] == src;
  }

  lemma OffsetsAre(f: Fields)
    ensures f.Offset(1) == HEADER + |f.lm| && f.Offset(2) == f.Offset(1) + |f.nt|
    ensures f.Offset(3) == f.Offset(2) + |f.domain| && f.Offset(4) == f.Offset(3) + |f.user|
  {
  }

  /** The header goes out in one piece. */
  method PutHeader(buf: array<byte>, flags: nat, ghost f: Fields, nt: nat, dom: nat, user: nat, host: nat)
    returns (size: nat)
    requires buf.Length == BUFSIZE && |f.lm| == LMLEN
    requires nt == |f.nt| && dom == |f.domain| && user == |f.user| && host == |f.host|
    modifies buf
    ensures size == HEADER && buf[..size] == Header(flags, f)
  {
    var lmrespoff := HEADER;
    var ntrespoff := lmrespoff + LMLEN;
    var domoff := ntrespoff + nt;
    var useroff := domoff + dom;
    var hostoff := useroff + user;
    var lens: seq<nat>, offs: seq<nat> :=
      [LMLEN, nt, dom, user, host], [lmrespoff, ntrespoff, domoff, useroff, hostoff];
    OffsetsAre(f);
    assert lens == Lengths(f) && offs == Offsets(f);
    MemCpy(buf, 0, START + Buffers(lens, offs, 5) + [0, 0, 0, 0, 0, 0, 0, 0] + LongQuartet(flags));
    size := 64;
  }

  /** The test before the NT response is copied; `NTLM_BUFSIZE - ntresplen` is an unsigned int. */
  predicate MayCopy(size: nat, ntresplen: nat) {
    size < (BUFSIZE - ntresplen) % 0x1_0000_0000
  }

  /** It keeps out responses of 936 to 1024 bytes. Longer ones pass, as the difference wraps. */
  lemma MayCopyMeans(ntresplen: nat)
    requires ntresplen < 0x1_0000_0000
    ensures MayCopy(HEADER + LMLEN, ntresplen) <==> ntresplen < 936 || ntresplen > BUFSIZE
  {
    if ntresplen > BUFSIZE {
      assert (BUFSIZE - ntresplen) % 0x1_0000_0000 == BUFSIZE - ntresplen + 0x1_0000_0000;
    }
  }

  /** The fields of a message for these responses and names. */
  function FieldsOf(flags: nat, lmresp: seq<byte>, ntresp: seq<byte>, userp: seq<byte>, host: seq<byte>): Fields {
    Fields(lmresp, ntresp,
           Stored(flags, SplitName(userp).0), Stored(flags, SplitName(userp).1), Stored(flags, host))
  }

  /** What is copied behind the header. */
  function Copied(f: Fields): Fields {
    if |f.nt| < 936 then f else f.(nt := [])
  }

  function TotalSize(g: Fields): nat {
    HEADER + |g.lm| + |g.nt| + |g.domain| + |g.user| + |g.host|
  }

  lemma DataIs(g: Fields)
    ensures Data(g, 2) == g.lm + g.nt && Data(g, 3) == Data(g, 2) + g.domain
    ensures Data(g, 4) == Data(g, 3) + g.user && Data(g, 5) == Data(g, 4) + g.host
    ensures HEADER + |Data(g, 5)| == TotalSize(g)
  {
    assert Data(g, 1) == g.lm;
  }

  /** A name is appended in either form. */
  method Append(buf: array<byte>, size: nat, flags: nat, s: seq<byte>) returns (end: nat)
    requires size + |Stored(flags, s)| <= buf.Length
    modifies buf
    ensures end == size + |Stored(flags, s)| && buf[..end] == old(buf[..size]) + Stored(flags, s)
  {
    if IsUnicode(flags) {
      UnicodeCpy(buf, size, s);
      end := size + 2 * |s|;
    } else {
      MemCpy(buf, size, s);
      end := size + |s|;
    }
  }

  /** The hashes are appended; a response for which the test fails is left out. */
  method AppendHashes(buf: array<byte>, size: nat, lmresp: seq<byte>, ntresp: seq<byte>)
    returns (end: nat, inside: bool)
    requires buf.Length == BUFSIZE && size == HEADER && |lmresp| == LMLEN && |ntresp| < 0x1_0000_0000
    modifies buf
    ensures inside <==> |ntresp| <= BUFSIZE
    ensures inside ==>
              var nt := if |ntresp| < 936 then ntresp else [];
              end == size + LMLEN + |nt| && buf[..end] == old(buf[..size]) + lmresp + nt
  {
    end := size;
    if end < BUFSIZE - 0x18 {
      MemCpy(buf, end, lmresp);
      end := end + 0x18;
    }
    MayCopyMeans(|ntresp|);
    if MayCopy(end, |ntresp|) {
      if end + |ntresp| > buf.Length {
        return end, false;
      }
      MemCpy(buf, end, ntresp);
      end := end + |ntresp|;
    }
    inside := true;
  }

  /** The names are appended. */
  method AppendNames(buf: array<byte>, size: nat, flags: nat, domain: seq<byte>, user: seq<byte>, host: seq<byte>)
    returns (end: nat)
    requires size + |Stored(flags, domain)| + |Stored(flags, user)| + |Stored(flags, host)| <= buf.Length
    modifies buf
    ensures end == size + |Stored(flags, domain)| + |Stored(flags, user)| + |Stored(flags, host)|
    ensures buf[..end] == old(buf[..size]) + Stored(flags, domain) + Stored(flags, user) + Stored(flags, host)
  {
    end := Append(buf, size, flags, domain);
    end := Append(buf, end, flags, user);
    end := Append(buf, end, flags, host);
  }

  lemma Regroup<T>(a: seq<T>, b: seq<T>, c: seq<T>)
    ensures a + (b + c) == a + b + c
  {
  }

  lemma MessageIs(flags: nat, f: Fields, g: Fields)
    ensures Message(flags, f, g) == Header(flags, f) + g.lm + g.nt + g.domain + g.user + g.host
    ensures |Message(flags, f, g)| == TotalSize(g)
  {
    DataIs(g);
    Regroup(Header(flags, f), g.lm, g.nt);
    Regroup(Header(flags, f), Data(g, 2), g.domain);
    Regroup(Header(flags, f), Data(g, 3), g.user);
    Regroup(Header(flags, f), Data(g, 4), g.host);
  }

  /** Everything but the encoding. */
  method Assemble(buf: array<byte>, flags: nat, lmresp: seq<byte>, ntresp: seq<byte>, userp: seq<byte>, host: seq<byte>)
    returns (result: Code, size: nat)
    requires buf.Length == BUFSIZE && |lmresp| == LMLEN && |ntresp| < 0x1_0000_0000
    modifies buf
    ensures var g := Copied(FieldsOf(flags, lmresp, ntresp, userp, host));
            result == if |ntresp| > BUFSIZE then OutOfBounds else if TotalSize(g) >= BUFSIZE then OutOfMemory else OK
    ensures result == OK ==>
              var f := FieldsOf(flags, lmresp, ntresp, userp, host);
              HEADER < size <= buf.Length && buf[..size] == Message(flags, f, Copied(f))
  {
    ghost var f := FieldsOf(flags, lmresp, ntresp, userp, host);
    MessageIs(flags, f, Copied(f));
    var (domain, user) := SplitName(userp);
    var domlen, userlen, hostlen := |domain|, |user|, |host|;
    if IsUnicode(flags) {
      domlen, userlen, hostlen := domlen * 2, userlen * 2, hostlen * 2;
    }
    size := PutHeader(buf, flags, f, |ntresp|, domlen, userlen, hostlen);
    var inside;
    size, inside := AppendHashes(buf, size, lmresp, ntresp);
    if !inside {
      return OutOfBounds, size;
    }
    if size + userlen + domlen + hostlen >= BUFSIZE {
      return OutOfMemory, size;
    }
    size := AppendNames(buf, size, flags, domain, user, host);
    result := OK;
  }

  /** Curl_sasl_create_ntlm_type3_message, given the responses that the crypto code computed. */
  method CreateType3(flags: nat, lmresp: seq<byte>, ntresp: seq<byte>, userp: seq<byte>, host: seq<byte>, allocOk: bool)
    returns (result: Code, out: array?<char>, outlen: nat)
    requires |lmresp| == LMLEN && |ntresp| < 0x1_0000_0000
    ensures var g := Copied(FieldsOf(flags, lmresp, ntresp, userp, host));
            result == if |ntresp| > BUFSIZE then OutOfBounds
                      else if TotalSize(g) >= BUFSIZE || !allocOk then OutOfMemory
                      else OK
    ensures result == OK ==>
              var f := FieldsOf(flags, lmresp, ntresp, userp, host);
              out != null && outlen < out.Length && out[..outlen] == Base64.Encoded(false, Message(flags, f, Copied(f)))
  {
    var ntlmbuf := new byte[BUFSIZE];
    var size;
    result, size := Assemble(ntlmbuf, flags, lmresp, ntresp, userp, host);
    if result != OK {
      return result, null, 0;
    }
    var blob := ntlmbuf[..];
    assert blob[..size] == ntlmbuf[..size];
    var encoded;
    encoded, out, outlen := Base64.Encode(false, blob, size, allocOk);
    result := if encoded.OK? then OK else OutOfMemory;
  }

  // ---------------------------------------------------------------- reading back

  lemma {:induction false} BufferAt(lens: seq<nat>, offs: seq<nat>, n: nat, k: nat)
    requires k < n <= |lens| == |offs|
    ensures Buffers(lens, offs, n)[8 * k..8 * k + 8] == SecBuf(lens[k], offs[k])
  {
    if k < n - 1 {
      BufferAt(lens, offs, n - 1, k);
      SliceOfFront(Buffers(lens, offs, n - 1), SecBuf(lens[n - 1], offs[n - 1]), 8 * k, 8 * k + 8);
    } else {
      SliceOfBack(Buffers(lens, offs, k), SecBuf(lens[k], offs[k]));
    }
  }

  lemma {:induction false} DataAt(g: Fields, n: nat, k: nat)
    requires k < n
    ensures g.Offset(k) - HEADER == |Data(g, k)|
    ensures |Data(g, k)| + |g.At(k)| <= |Data(g, n)|
    ensures Data(g, n)[|Data(g, k)|..|Data(g, k)| + |g.At(k)|] == g.At(k)
  {
    OffsetIs(g, k);
    if k < n - 1 {
      DataAt(g, n - 1, k);
      SliceOfFront(Data(g, n - 1), g.At(n - 1), |Data(g, k)|, |Data(g, k)| + |g.At(k)|);
    } else {
      SliceOfBack(Data(g, k), g.At(k));
    }
  }

  lemma {:induction false} OffsetIs(g: Fields, k: nat)
    ensures g.Offset(k) == HEADER + |Data(g, k)|
  {
    if k > 0 {
      OffsetIs(g, k - 1);
    }
  }

  lemma SecBufReads(len: nat, off: nat)
    requires len < 65536 && off < 65536
    ensures Read16(SecBuf(len, off), 0) == len && Read32(SecBuf(len, off), 4) == off
  {
    ReadShortPair(len);
    ReadShortPair(off);
    var b := SecBuf(len, off);
    assert b[0] == len % 256 && b[1] == len / 256 % 256;
    assert b[4] == off % 256 && b[5] == off / 256 % 256 && b[6] == 0 && b[7] == 0;
  }

  lemma InTable(bufs: seq<byte>, rest: seq<byte>, k: nat)
    requires 8 * k + 8 <= |bufs|
    ensures (START + (bufs + rest))[12 + 8 * k..20 + 8 * k] == bufs[8 * k..8 * k + 8]
  {
    SliceOfFront(bufs, rest, 8 * k, 8 * k + 8);
    SliceBehind(START, bufs + rest, 8 * k, 8 * k + 8);
  }

  lemma HeaderFirst(bufs: seq<byte>, zeros: seq<byte>, flags: seq<byte>, data: seq<byte>)
    ensures START + bufs + zeros + flags + data == START + (bufs + (zeros + flags + data))
  {
  }

  lemma HeaderAt(flags: nat, f: Fields, g: Fields, k: nat)
    requires k < 5
    ensures |Message(flags, f, g)| >= HEADER
    ensures Message(flags, f, g)[12 + 8 * k..20 + 8 * k] == SecBuf(|f.At(k)|, f.Offset(k))
  {
    var bufs := Buffers(Lengths(f), Offsets(f), 5);
    var zeros: seq<byte> := [0, 0, 0, 0, 0, 0, 0, 0];
    HeaderFirst(bufs, zeros, LongQuartet(flags), Data(g, 5));
    InTable(bufs, zeros + LongQuartet(flags) + Data(g, 5), k);
    BufferAt(Lengths(f), Offsets(f), 5, k);
    assert Lengths(f)[k] == |f.At(k)| && Offsets(f)[k] == f.Offset(k);
  }

  lemma EntryReads(flags: nat, f: Fields, g: Fields, k: nat)
    requires k < 5 && |f.At(k)| < 65536 && f.Offset(k) < 65536 && |Message(flags, f, g)| >= HEADER
    ensures Read16(Message(flags, f, g), 12 + 8 * k) == |f.At(k)|
    ensures Read32(Message(flags, f, g), 16 + 8 * k) == f.Offset(k)
  {
    HeaderAt(flags, f, g, k);
    SecBufReads(|f.At(k)|, f.Offset(k));
    var msg, b := Message(flags, f, g), Message(flags, f, g)[12 + 8 * k..20 + 8 * k];
    assert b[0] == msg[12 + 8 * k] && b[1] == msg[13 + 8 * k];
    assert b[4] == msg[16 + 8 * k] && b[5] == msg[17 + 8 * k] && b[6] == msg[18 + 8 * k] && b[7] == msg[19 + 8 * k];
  }

  lemma OffsetsInside(f: Fields, k: nat)
    requires k < 5
    ensures f.Offset(k) + |f.At(k)| <= TotalSize(f)
    ensures f.Offset(k + 1) == f.Offset(k) + |f.At(k)|
    ensures f.Offset(5) == TotalSize(f)
  {
    DataIs(f);
    OffsetIs(f, 5);
    DataAt(f, 5, k);
  }

  lemma ReadSlice(header: seq<byte>, data: seq<byte>, k: nat, lo: nat, field: seq<byte>)
    requires k < 5 && |header| == HEADER && lo + |field| <= |data| && data[lo..lo + |field|] == field
    requires Read16(header + data, 12 + 8 * k) == |field| && Read32(header + data, 16 + 8 * k) == HEADER + lo
    ensures ReadField(header + data, k) == Some(field)
  {
    SliceBehind(header, data, lo, lo + |field|);
  }

  /** A message with all fields copied gives each of them back. */
  lemma FieldReadsBack(flags: nat, f: Fields, k: nat)
    requires k < 5 && TotalSize(f) < BUFSIZE && |Message(flags, f, f)| >= HEADER
    ensures ReadField(Message(flags, f, f), k) == Some(f.At(k))
  {
    OffsetsInside(f, k);
    DataAt(f, 5, k);
    EntryReads(flags, f, f, k);
    ReadSlice(Header(flags, f), Data(f, 5), k, |Data(f, k)|, f.At(k));
  }

  /** A response that was left out is not there: its security buffer points behind the message. */
  lemma LeftOutIsLost(flags: nat, f: Fields)
    requires |f.lm| == LMLEN && 936 <= |f.nt| <= BUFSIZE && TotalSize(Copied(f)) < BUFSIZE
    requires |Message(flags, f, Copied(f))| >= HEADER
    ensures ReadField(Message(flags, f, Copied(f)), 1) == None
  {
    assert f.Offset(1) == HEADER + LMLEN;
    EntryReads(flags, f, Copied(f), 1);
    MessageIs(flags, f, Copied(f));
  }

  /**
   Whenever the message is sent, its fields follow the header without a gap up to the end, and all of
   them can be read back, exactly when the NT response is shorter than 936 bytes.
   */
  lemma ReadBackIffShort(flags: nat, f: Fields)
    requires |f.lm| == LMLEN && |f.nt| <= BUFSIZE && TotalSize(Copied(f)) < BUFSIZE
    ensures var token := Base64.Encoded(false, Message(flags, f, Copied(f)));
            Base64.WellFormed(token) && Base64.Decoded(token) == Message(flags, f, Copied(f))
    ensures var msg := Message(flags, f, Copied(f));
            && |msg| >= HEADER
            && ((forall k: nat | k < 5 :: ReadField(msg, k) == Some(f.At(k))) <==> |f.nt| < 936)
            && (f.Offset(5) == |msg| <==> |f.nt| < 936)
  {
    var msg := Message(flags, f, Copied(f));
    Base64.DecodeOfEncode(msg);
    MessageIs(flags, f, Copied(f));
    OffsetsInside(f, 0);
    if |f.nt| < 936 {
      forall k: nat | k < 5 ensures ReadField(msg, k) == Some(f.At(k)) {
        FieldReadsBack(flags, f, k);
      }
    } else {
      LeftOutIsLost(flags, f);
    }
  }

  /** The size of an NTLMv2 response: the hash, and a blob around the target info. */
  function ResponseSize(targetInfo: nat): nat {
    16 + (44 - 16 + targetInfo + 4)
  }

  /** A message without names whose response is `n` zeros. */
  function Plain(n: nat): Fields {
    Fields(seq(LMLEN, _ => 0), seq(n, _ => 0), [], [], [])
  }

  /** The first length that is left out: 888 bytes of target info give a message that describes a field it lacks. */
  lemma FirstLeftOut()
    ensures ResponseSize(888) == 936 && !MayCopy(HEADER + LMLEN, 936) && MayCopy(HEADER + LMLEN, 935)
    ensures var f := Plain(936);
            && TotalSize(Copied(f)) < BUFSIZE && |Message(0, f, Copied(f))| >= HEADER
            && ReadField(Message(0, f, Copied(f)), 1) == None
  {
    var f := Plain(936);
    MayCopyMeans(936);
    MayCopyMeans(935);
    MessageIs(0, f, Copied(f));
    LeftOutIsLost(0, f);
  }

  /** The first length for which the difference wraps: 977 bytes of target info pass the test and do not fit. */
  lemma FirstOutOfBounds()
    ensures ResponseSize(977) == 1025 && MayCopy(HEADER + LMLEN, 1025) && !MayCopy(HEADER + LMLEN, 1024)
    ensures HEADER + LMLEN + 1025 > BUFSIZE
  {
    MayCopyMeans(1025);
    MayCopyMeans(1024);
  }

  lemma LengthsRead(flags: nat, f: Fields, g: Fields, k: nat)
    requires k < 5 && |f.At(k)| < 65536 && |Message(flags, f, g)| >= HEADER
    ensures Read16(Message(flags, f, g), 12 + 8 * k) == Read16(Message(flags, f, g), 14 + 8 * k) == |f.At(k)|
  {
    HeaderAt(flags, f, g, k);
    ReadShortPair(|f.At(k)|);
    var msg, b := Message(flags, f, g), SecBuf(|f.At(k)|, f.Offset(k));
    assert b == msg[12 + 8 * k..20 + 8 * k];
    assert b[0] == msg[12 + 8 * k] && b[1] == msg[13 + 8 * k] && b[2] == msg[14 + 8 * k] && b[3] == msg[15 + 8 * k];
  }

  lemma StartReads(flags: nat, f: Fields, g: Fields)
    ensures var msg := Message(flags, f, g);
            && |msg| >= HEADER && msg[..8] == [78, 84, 76, 77, 83, 83, 80, 0] && Read32(msg, 8) == 3
            && msg[52..60] == [0, 0, 0, 0, 0, 0, 0, 0]
  {
    var bufs, zeros: seq<byte> := Buffers(Lengths(f), Offsets(f), 5), [0, 0, 0, 0, 0, 0, 0, 0];
    HeaderFirst(bufs, zeros, LongQuartet(flags), Data(g, 5));
    var msg := Message(flags, f, g);
    assert msg[..12] == START;
    assert msg[..8] == START[..8] && msg[8] == START[8] && msg[9] == START[9] && msg[10] == START[10];
    assert msg[52..60] == zeros;
  }

  /** Where everything stands in the header: signature, type, and the length of each field, twice. */
  lemma HeaderReadsBack(flags: nat, f: Fields, g: Fields)
    requires |f.lm| < 65536 && |f.nt| < 65536 && |f.domain| < 65536 && |f.user| < 65536 && |f.host| < 65536
    ensures var msg := Message(flags, f, g);
            && |msg| >= 64 && msg[..8] == [78, 84, 76, 77, 83, 83, 80, 0] && Read32(msg, 8) == 3
            && Read16(msg, 12) == Read16(msg, 14) == |f.lm| && Read16(msg, 20) == Read16(msg, 22) == |f.nt|
            && Read16(msg, 28) == Read16(msg, 30) == |f.domain| && Read16(msg, 36) == Read16(msg, 38) == |f.user|
            && Read16(msg, 44) == Read16(msg, 46) == |f.host| && msg[52..60] == [0, 0, 0, 0, 0, 0, 0, 0]
  {
    StartReads(flags, f, g);
    LengthsRead(flags, f, g, 0);
    LengthsRead(flags, f, g, 1);
    LengthsRead(flags, f, g, 2);
    LengthsRead(flags, f, g, 3);
    LengthsRead(flags, f, g, 4);
  }

  /** The flags are read back from the end of the header. */
  lemma FlagsReadBack(flags: nat, f: Fields, g: Fields)
    requires flags < 0x1_0000_0000
    ensures |Message(flags, f, g)| >= HEADER && Read32(Message(flags, f, g), 60) == flags
  {
    var q, msg := LongQuartet(flags), Message(flags, f, g);
    ReadLongQuartet(flags);
    assert forall i | 0 <= i < 4 :: Header(flags, f)[60 + i] == q[i];
    assert forall i | 0 <= i < 4 :: msg[60 + i] == q[i];
  }

  /** The string in a field of either form. */
  function Narrow(flags: nat, b: seq<byte>): seq<byte> {
    if !IsUnicode(flags) then b
    else if |b| < 2 then []
    else Narrow(flags, b[..|b| - 2]) + [b[|b| - 2]]
  }

  lemma {:induction false} NameReadsBack(flags: nat, s: seq<byte>)
    ensures Narrow(flags, Stored(flags, s)) == s
  {
    if IsUnicode(flags) && s != [] {
      var b, front := Wide(s), s[..|s| - 1];
      assert b[..|b| - 2] == Wide(front);
      NameReadsBack(flags, front);
    }
  }
}
