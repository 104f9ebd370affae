/**
 The gzip decoder's incremental header parser (content_encoding.c, OLD_ZLIB_SUPPORT).

 `Check` is what check_gzip_header computes.  It is tied to the header format of section 2.3 of
 RFC 1952 by a printer, and the decoder is shown to hand zlib the same bytes however the stream
 is cut into chunks.
 */
module ContentEncoding {
  import opened Basics

  // ---------------------------------------------------------------- the header check

  datatype Verdict = GzipOk(hlen: nat) | GzipBad | GzipUnderflow

  const GZIP_MAGIC_0: byte := 0x1f
  const GZIP_MAGIC_1: byte := 0x8b
  const Z_DEFLATED: byte := 8

  /** Bits of the flag byte; bits 5..7 are reserved. */
  const HEAD_CRC := 2
  const EXTRA_FIELD := 4
  const ORIG_NAME := 8
  const COMMENT := 16
  const RESERVED := 32

  predicate Has(flags: byte, bit: int)
    requires bit in {2, 4, 8, 16}
  {
    flags / bit % 2 == 1
  }

  /** The position after the first NUL at or after `pos`. */
  function SkipString(d: seq<byte>, pos: nat): (r: Option<nat>)
    requires pos <= |d|
    ensures r.Some? ==> pos < r.value <= |d|
    decreases |d| - pos
  {
    if pos == |d| then None else if d[pos] == 0 then Some(pos + 1) else SkipString(d, pos + 1)
  }

  function SkipCrc(d: seq<byte>, flags: byte, pos: nat): (r: Option<nat>)
    requires pos <= |d|
    ensures r.Some? ==> pos <= r.value <= |d|
  {
    if !Has(flags, HEAD_CRC) then Some(pos) else if |d| - pos < 2 then None else Some(pos + 2)
  }

  function SkipComment(d: seq<byte>, flags: byte, pos: nat): (r: Option<nat>)
    requires pos <= |d|
    ensures r.Some? ==> pos <= r.value <= |d|
  {
    if !Has(flags, COMMENT) then SkipCrc(d, flags, pos)
    else
      match SkipString(d, pos)
      case None => None
      case Some(p) => SkipCrc(d, flags, p)
  }

  function SkipName(d: seq<byte>, flags: byte, pos: nat): (r: Option<nat>)
    requires pos <= |d|
    ensures r.Some? ==> pos <= r.value <= |d|
  {
    if !Has(flags, ORIG_NAME) then SkipComment(d, flags, pos)
    else
      match SkipString(d, pos)
      case None => None
      case Some(p) => SkipComment(d, flags, p)
  }

  /** A little-endian 16-bit length. */
  function Word(d: seq<byte>, pos: nat): nat
    requires pos + 1 < |d|
  {
    (d[pos + 1] as int) * 256 + d[pos] as int
  }

  function SkipExtra(d: seq<byte>, flags: byte, pos: nat): (r: Option<nat>)
    requires pos <= |d|
    ensures r.Some? ==> pos <= r.value <= |d|
  {
    if !Has(flags, EXTRA_FIELD) then SkipName(d, flags, pos)
    else if |d| - pos < 2 || |d| - pos < Word(d, pos) + 2 then None
    else SkipName(d, flags, pos + Word(d, pos) + 2)
  }

  predicate BadStart(d: seq<byte>)
    requires |d| >= 10
  {
    d[0] != GZIP_MAGIC_0 || d[1] != GZIP_MAGIC_1 || d[2] != Z_DEFLATED || d[3] >= RESERVED
  }

  function Check(d: seq<byte>): (v: Verdict)
    ensures v.GzipOk? ==> 10 <= v.hlen <= |d|
  {
    if |d| < 10 then GzipUnderflow
    else if BadStart(d) then GzipBad
    else
      match SkipExtra(d, d[3], 10)
      case None => GzipUnderflow
      case Some(n) => GzipOk(n)
  }

  /** One of the two string loops of check_gzip_header. */
  method SkipToNul(data: seq<byte>, pos: nat, left: nat) returns (pos': nat, left': nat)
    requires pos + left == |data|
    ensures pos <= pos' && pos' + left' == |data|
    ensures left' == 0 || data[pos'] == 0
    ensures SkipString(data, pos) == if left' == 0 then None else Some(pos' + 1)
  {
    pos', left' := pos, left;
    while left' != 0 && data[pos'] != 0
      invariant pos <= pos' && pos' + left' == |data|
      invariant SkipString(data, pos') == SkipString(data, pos)
      decreases left'
    {
      left', pos' := left' - 1, pos' + 1;
    }
  }

  /** check_gzip_header. */
  method CheckGzipHeader(data: seq<byte>) returns (v: Verdict)
    ensures v == Check(data)
  {
    var totallen, left, pos := |data|, |data|, 0;
    if left < 10 {
      return GzipUnderflow;
    }
    if data[0] != GZIP_MAGIC_0 || data[1] != GZIP_MAGIC_1 {
      return GzipBad;
    }
    var mthd, flags := data[2], data[3];
    if mthd != Z_DEFLATED || flags >= RESERVED {
      return GzipBad;
    }
    // the fixed part: ten bytes with the modification time, the extra flags and the system
    left, pos := left - 10, pos + 10;
    if Has(flags, EXTRA_FIELD) {
      if left < 2 {
        return GzipUnderflow;
      }
      var extra_len := Word(data, pos);
      if left < extra_len + 2 {
        return GzipUnderflow;
      }
      left, pos := left - (extra_len + 2), pos + (extra_len + 2);
    }
    assert Check(data) == match SkipName(data, flags, pos) case None => GzipUnderflow case Some(n) => GzipOk(n);
    if Has(flags, ORIG_NAME) {
      pos, left := SkipToNul(data, pos, left);
      if left == 0 {
        return GzipUnderflow;
      }
      left, pos := left - 1, pos + 1;
    }
    assert Check(data) == match SkipComment(data, flags, pos) case None => GzipUnderflow case Some(n) => GzipOk(n);
    if Has(flags, COMMENT) {
      pos, left := SkipToNul(data, pos, left);
      if left == 0 {
        return GzipUnderflow;
      }
      left := left - 1;
    }
    if Has(flags, HEAD_CRC) {
      if left < 2 {
        return GzipUnderflow;
      }
      left := left - 2;
    }
    return GzipOk(totallen - left);
  }

  // ---------------------------------------------------------------- prefix stability

  lemma {:induction false} SkipStringStable(d: seq<byte>, more: seq<byte>, pos: nat)
    requires pos <= |d| && SkipString(d, pos).Some?
    ensures SkipString(d + more, pos) == SkipString(d, pos)
    decreases |d| - pos
  {
    if d[pos] != 0 {
      SkipStringStable(d, more, pos + 1);
    }
  }

  lemma SkipCommentStable(d: seq<byte>, more: seq<byte>, flags: byte, pos: nat)
    requires pos <= |d| && SkipComment(d, flags, pos).Some?
    ensures SkipComment(d + more, flags, pos) == SkipComment(d, flags, pos)
  {
    if Has(flags, COMMENT) {
      SkipStringStable(d, more, pos);
    }
  }

  lemma SkipNameStable(d: seq<byte>, more: seq<byte>, flags: byte, pos: nat)
    requires pos <= |d| && SkipName(d, flags, pos).Some?
    ensures SkipName(d + more, flags, pos) == SkipName(d, flags, pos)
  {
    if Has(flags, ORIG_NAME) {
      SkipStringStable(d, more, pos);
      SkipCommentStable(d, more, flags, SkipString(d, pos).value);
    } else {
      SkipCommentStable(d, more, flags, pos);
    }
  }

  /** Once the check has answered, more input changes neither the verdict nor the length. */
  lemma VerdictIsStable(d: seq<byte>, more: seq<byte>)
    requires Check(d) != GzipUnderflow
    ensures Check(d + more) == Check(d)
  {
    var e := d + more;
    assert e[0] == d[0] && e[1] == d[1] && e[2] == d[2] && e[3] == d[3];
    if !BadStart(d) {
      if Has(d[3], EXTRA_FIELD) {
        assert e[10] == d[10] && e[11] == d[11];
        SkipNameStable(d, more, d[3], 10 + Word(d, 10) + 2);
      } else {
        SkipNameStable(d, more, d[3], 10);
      }
    }
  }

  // ---------------------------------------------------------------- the format of RFC 1952

  /** A member header; `fixed` is MTIME, XFL and OS. */
  datatype Header = Header(
    flags: byte, fixed: seq<byte>, extra: Option<seq<byte>>, name: Option<seq<byte>>,
    comment: Option<seq<byte>>, crc16: Option<seq<byte>>)

  predicate WellFormed(h: Header) {
    && h.flags < RESERVED && |h.fixed| == 6
    && (h.extra.Some? <==> Has(h.flags, EXTRA_FIELD)) && (h.extra.Some? ==> |h.extra.value| < 65536)
    && (h.name.Some? <==> Has(h.flags, ORIG_NAME)) && (h.name.Some? ==> 0 !in h.name.value)
    && (h.comment.Some? <==> Has(h.flags, COMMENT)) && (h.comment.Some? ==> 0 !in h.comment.value)
    && (h.crc16.Some? <==> Has(h.flags, HEAD_CRC)) && (h.crc16.Some? ==> |h.crc16.value| == 2)
  }

  function PrintString(s: Option<seq<byte>>): seq<byte> {
    if s.Some? then s.value + [0] else []
  }

  function PrintExtra(s: Option<seq<byte>>): seq<byte>
    requires s.Some? ==> |s.value| < 65536
  {
    if s.Some? then [|s.value| % 256, |s.value| / 256] + s.value else []
  }

  function PrintCrc(s: Option<seq<byte>>): seq<byte> {
    if s.Some? then s.value else []
  }

  function Print(h: Header): seq<byte>
    requires WellFormed(h)
  {
    [GZIP_MAGIC_0, GZIP_MAGIC_1, Z_DEFLATED, h.flags] + h.fixed
    + (PrintExtra(h.extra) + (PrintString(h.name) + (PrintString(h.comment) + PrintCrc(h.crc16))))
  }

  lemma {:induction false} SkipPrinted(d: seq<byte>, pos: nat, s: seq<byte>)
    requires pos + |s| < |d| && d[pos..pos + |s|] == s && 0 !in s && d[pos + |s|] == 0
    ensures SkipString(d, pos) == Some(pos + |s| + 1)
    decreases |s|
  {
    if s != [] {
      assert d[pos] == s[0];
      SkipPrinted(d, pos + 1, s[1..]);
    }
  }

  lemma StringPrinted(d: seq<byte>, pos: nat, s: seq<byte>, rest: seq<byte>)
    requires 0 !in s && pos <= |d| && d[pos..] == s + [0] + rest
    ensures SkipString(d, pos) == Some(pos + |s| + 1) && d[pos + |s| + 1..] == rest
  {
    var tail := d[pos..];
    assert tail[|s|] == 0 && d[pos..pos + |s|] == tail[..|s|];
    SkipPrinted(d, pos, s);
  }

  lemma CommentPrinted(d: seq<byte>, flags: byte, pos: nat, c: Option<seq<byte>>, crc: Option<seq<byte>>,
                       rest: seq<byte>)
    requires pos <= |d| && d[pos..] == PrintString(c) + PrintCrc(crc) + rest
    requires (c.Some? <==> Has(flags, COMMENT)) && (c.Some? ==> 0 !in c.value)
    requires (crc.Some? <==> Has(flags, HEAD_CRC)) && (crc.Some? ==> |crc.value| == 2)
    ensures SkipComment(d, flags, pos) == Some(pos + |PrintString(c) + PrintCrc(crc)|)
  {
    if c.Some? {
      assert d[pos..] == c.value + [0] + (PrintCrc(crc) + rest);
      StringPrinted(d, pos, c.value, PrintCrc(crc) + rest);
    }
  }

  lemma NamePrinted(d: seq<byte>, flags: byte, pos: nat, n: Option<seq<byte>>, tail: seq<byte>)
    requires pos <= |d| && d[pos..] == PrintString(n) + tail
    requires (n.Some? <==> Has(flags, ORIG_NAME)) && (n.Some? ==> 0 !in n.value)
    ensures d[pos + |PrintString(n)|..] == tail
    ensures SkipName(d, flags, pos) == SkipComment(d, flags, pos + |PrintString(n)|)
  {
    if n.Some? {
      StringPrinted(d, pos, n.value, tail);
    }
  }

  lemma ExtraPrinted(d: seq<byte>, flags: byte, pos: nat, e: Option<seq<byte>>, tail: seq<byte>)
    requires (e.Some? <==> Has(flags, EXTRA_FIELD)) && (e.Some? ==> |e.value| < 65536)
    requires pos <= |d| && d[pos..] == PrintExtra(e) + tail
    ensures d[pos + |PrintExtra(e)|..] == tail
    ensures SkipExtra(d, flags, pos) == SkipName(d, flags, pos + |PrintExtra(e)|)
  {
    var all := d[pos..];
    assert d[pos + |PrintExtra(e)|..] == all[|PrintExtra(e)|..];
    if e.Some? {
      assert all[0] == d[pos] && all[1] == d[pos + 1];
      assert Word(d, pos) == |e.value|;
    }
  }

  lemma StartPrinted(flags: byte, fixed: seq<byte>, more: seq<byte>)
    requires flags < RESERVED && |fixed| == 6
    ensures var d := [GZIP_MAGIC_0, GZIP_MAGIC_1, Z_DEFLATED, flags] + fixed + more;
            |d| >= 10 && !BadStart(d) && d[3] == flags && d[10..] == more
  {
  }

  lemma NameAndCommentPrinted(d: seq<byte>, pos: nat, h: Header, rest: seq<byte>)
    requires WellFormed(h) && pos <= |d|
    requires d[pos..] == PrintString(h.name) + (PrintString(h.comment) + PrintCrc(h.crc16) + rest)
    ensures SkipName(d, h.flags, pos) ==
            Some(pos + |PrintString(h.name)| + |PrintString(h.comment) + PrintCrc(h.crc16)|)
  {
    NamePrinted(d, h.flags, pos, h.name, PrintString(h.comment) + PrintCrc(h.crc16) + rest);
    CommentPrinted(d, h.flags, pos + |PrintString(h.name)|, h.comment, h.crc16, rest);
  }

  /** The check walks over the printed parts one by one. */
  lemma PartsAreAccepted(d: seq<byte>, h: Header, rest: seq<byte>)
    requires WellFormed(h) && |d| >= 10 && !BadStart(d) && d[3] == h.flags
    requires d[10..] == PrintExtra(h.extra)
                        + (PrintString(h.name) + (PrintString(h.comment) + PrintCrc(h.crc16) + rest))
    ensures Check(d) == GzipOk(10 + |PrintExtra(h.extra)| + |PrintString(h.name)|
                               + |PrintString(h.comment) + PrintCrc(h.crc16)|)
  {
    ExtraPrinted(d, h.flags, 10, h.extra,
                 PrintString(h.name) + (PrintString(h.comment) + PrintCrc(h.crc16) + rest));
    NameAndCommentPrinted(d, 10 + |PrintExtra(h.extra)|, h, rest);
  }

  lemma PrintThenRest(h: Header, rest: seq<byte>)
    requires WellFormed(h)
    ensures var d := Print(h) + rest;
            && |d| >= 10 && !BadStart(d) && d[3] == h.flags
            && d[10..] == PrintExtra(h.extra)
                          + (PrintString(h.name) + (PrintString(h.comment) + PrintCrc(h.crc16) + rest))
  {
    var tail := PrintString(h.comment) + PrintCrc(h.crc16);
    var most := PrintExtra(h.extra) + (PrintString(h.name) + tail);
    StartPrinted(h.flags, h.fixed, most + rest);
    assert Print(h) + rest == [GZIP_MAGIC_0, GZIP_MAGIC_1, Z_DEFLATED, h.flags] + h.fixed + (most + rest);
    assert most + rest == PrintExtra(h.extra) + (PrintString(h.name) + (tail + rest));
  }

  /** A printed header is accepted, with its own length, whatever follows. */
  lemma PrintedHeaderIsAccepted(h: Header, rest: seq<byte>)
    requires WellFormed(h)
    ensures Check(Print(h) + rest) == GzipOk(|Print(h)|)
  {
    PrintThenRest(h, rest);
    PartsAreAccepted(Print(h) + rest, h, rest);
  }

  /** The text of a skipped string. */
  lemma {:induction false} SkippedString(d: seq<byte>, pos: nat)
    requires pos <= |d| && SkipString(d, pos).Some?
    ensures var p := SkipString(d, pos).value;
            0 !in d[pos..p - 1] && d[pos..p] == d[pos..p - 1] + [0]
    decreases |d| - pos
  {
    if d[pos] != 0 {
      SkippedString(d, pos + 1);
      var p := SkipString(d, pos).value;
      assert d[pos..p - 1] == [d[pos]] + d[pos + 1..p - 1];
    }
  }

  lemma ReadString(d: seq<byte>, pos: nat, present: bool) returns (s: Option<seq<byte>>, end: nat)
    requires pos <= |d| && (present ==> SkipString(d, pos).Some?)
    ensures s.Some? == present && (present ==> 0 !in s.value && end == SkipString(d, pos).value)
    ensures (!present ==> end == pos) && pos <= end <= |d| && PrintString(s) == d[pos..end]
  {
    s, end := None, pos;
    if present {
      SkippedString(d, pos);
      end := SkipString(d, pos).value;
      s := Some(d[pos..end - 1]);
    }
  }

  lemma ReadFromComment(d: seq<byte>, flags: byte, pos: nat, end: nat)
    returns (c: Option<seq<byte>>, crc: Option<seq<byte>>)
    requires pos <= |d| && SkipComment(d, flags, pos) == Some(end)
    ensures (c.Some? <==> Has(flags, COMMENT)) && (c.Some? ==> 0 !in c.value)
    ensures (crc.Some? <==> Has(flags, HEAD_CRC)) && (crc.Some? ==> |crc.value| == 2)
    ensures PrintString(c) + PrintCrc(crc) == d[pos..end]
  {
    var p;
    c, p := ReadString(d, pos, Has(flags, COMMENT));
    crc := if Has(flags, HEAD_CRC) then Some(d[p..end]) else None;
    CutTwice(d, pos, p, end);
  }

  lemma ReadFromName(d: seq<byte>, flags: byte, pos: nat, end: nat)
    returns (n: Option<seq<byte>>, c: Option<seq<byte>>, crc: Option<seq<byte>>)
    requires pos <= |d| && SkipName(d, flags, pos) == Some(end)
    ensures (n.Some? <==> Has(flags, ORIG_NAME)) && (n.Some? ==> 0 !in n.value)
    ensures (c.Some? <==> Has(flags, COMMENT)) && (c.Some? ==> 0 !in c.value)
    ensures (crc.Some? <==> Has(flags, HEAD_CRC)) && (crc.Some? ==> |crc.value| == 2)
    ensures PrintString(n) + (PrintString(c) + PrintCrc(crc)) == d[pos..end]
  {
    var p;
    n, p := ReadString(d, pos, Has(flags, ORIG_NAME));
    c, crc := ReadFromComment(d, flags, p, end);
    CutTwice(d, pos, p, end);
  }

  /** The extra field as read. */
  lemma ReadExtra(d: seq<byte>, flags: byte) returns (extra: Option<seq<byte>>, p: nat)
    requires |d| >= 10 && SkipExtra(d, flags, 10).Some?
    ensures (extra.Some? <==> Has(flags, EXTRA_FIELD)) && (extra.Some? ==> |extra.value| < 65536)
    ensures 10 <= p <= |d| && PrintExtra(extra) == d[10..p]
    ensures SkipExtra(d, flags, 10) == SkipName(d, flags, p)
  {
    extra, p := None, 10;
    if Has(flags, EXTRA_FIELD) {
      p := 12 + Word(d, 10);
      extra := Some(d[12..p]);
      assert d[10..p] == [d[10], d[11]] + d[12..p];
    }
  }

  lemma CutTwice<T>(d: seq<T>, i: nat, j: nat, k: nat)
    requires i <= j <= k <= |d|
    ensures d[i..k] == d[i..j] + d[j..k]
  {
  }

  lemma CutThrice<T>(d: seq<T>, i: nat, j: nat, k: nat)
    requires i <= j <= k <= |d|
    ensures d[..k] == d[..i] + (d[i..j] + d[j..k])
  {
  }

  /** An accepted prefix is a printed header. */
  lemma AcceptedHeaderIsPrinted(d: seq<byte>) returns (h: Header)
    requires Check(d).GzipOk?
    ensures WellFormed(h) && Print(h) == d[..Check(d).hlen]
  {
    var extra, p := ReadExtra(d, d[3]);
    var end := SkipName(d, d[3], p).value;
    var name, comment, crc := ReadFromName(d, d[3], p, end);
    h := Header(d[3], d[4..10], extra, name, comment, crc);
    assert d[..10] == [GZIP_MAGIC_0, GZIP_MAGIC_1, Z_DEFLATED, d[3]] + d[4..10];
    CutThrice(d, 10, p, end);
  }

  ghost predicate IsHeader(p: seq<byte>) {
    exists h :: WellFormed(h) && Print(h) == p
  }

  lemma HeaderIsAccepted(p: seq<byte>, rest: seq<byte>)
    requires IsHeader(p)
    ensures Check(p + rest) == GzipOk(|p|)
  {
    var h :| WellFormed(h) && Print(h) == p;
    PrintedHeaderIsAccepted(h, rest);
  }

  /** The check accepts exactly the streams that start with a header, and finds its length. */
  lemma CheckIsExact(d: seq<byte>, n: nat)
    requires n <= |d|
    ensures Check(d) == GzipOk(n) <==> IsHeader(d[..n])
  {
    if IsHeader(d[..n]) {
      HeaderIsAccepted(d[..n], d[n..]);
      assert d == d[..n] + d[n..];
    } else if Check(d) == GzipOk(n) {
      var h := AcceptedHeaderIsPrinted(d);
    }
  }

  /** The shortest header, and one with every optional part. */
  lemma KnownHeaders(rest: seq<byte>)
    ensures Check([31, 139, 8, 0, 0, 0, 0, 0, 0, 3] + rest) == GzipOk(10)
    ensures Check([31, 139, 8, 30, 0, 0, 0, 0, 0, 3, 1, 0, 7, 97, 0, 98, 0, 5, 6] + rest) == GzipOk(19)
  {
    var short, long := Header(0, [0, 0, 0, 0, 0, 3], None, None, None, None),
                       Header(30, [0, 0, 0, 0, 0, 3], Some([7]), Some([97]), Some([98]), Some([5, 6]));
    assert Print(short) == [31, 139, 8, 0, 0, 0, 0, 0, 0, 3];
    assert Print(long) == [31, 139, 8, 30, 0, 0, 0, 0, 0, 3, 1, 0, 7, 97, 0, 98, 0, 5, 6];
    PrintedHeaderIsAccepted(short, rest);
    PrintedHeaderIsAccepted(long, rest);
  }

  // ---------------------------------------------------------------- when a stream is rejected

  /** Zeros behind the data end every string, and `n` of them leave room. */
  ghost predicate ZerosFrom(d: seq<byte>, from: nat) {
    from <= |d| && forall i | from <= i < |d| :: d[i] == 0
  }

  lemma {:induction false} StringEndsInZeros(d: seq<byte>, from: nat, pos: nat, most: nat)
    requires ZerosFrom(d, from) && from <= most < |d| && pos <= most
    ensures SkipString(d, pos).Some? && SkipString(d, pos).value <= most + 1
    decreases most - pos
  {
    if d[pos] != 0 {
      StringEndsInZeros(d, from, pos + 1, most);
    }
  }

  lemma CommentEndsInZeros(d: seq<byte>, from: nat, flags: byte, pos: nat, most: nat)
    requires ZerosFrom(d, from) && from <= most && pos <= most && most + 3 <= |d|
    ensures SkipComment(d, flags, pos).Some?
  {
    StringEndsInZeros(d, from, pos, most);
  }

  lemma NameEndsInZeros(d: seq<byte>, from: nat, flags: byte, pos: nat, most: nat)
    requires ZerosFrom(d, from) && from <= most && pos <= most && most + 4 <= |d|
    ensures SkipName(d, flags, pos).Some?
  {
    StringEndsInZeros(d, from, pos, most);
    if Has(flags, ORIG_NAME) {
      CommentEndsInZeros(d, from, flags, SkipString(d, pos).value, most + 1);
    } else {
      CommentEndsInZeros(d, from, flags, pos, most);
    }
  }

  /** More than the longest extra field, and the ends of two strings and a checksum. */
  const ENOUGH := 65536 + 6

  /** A start that is not bad can be completed to a header. */
  lemma StartCanBeCompleted(d: seq<byte>, zeros: seq<byte>)
    requires |d| >= 10 && !BadStart(d) && |zeros| == ENOUGH && forall i | 0 <= i < |zeros| :: zeros[i] == 0
    ensures Check(d + zeros).GzipOk?
  {
    var e := d + zeros;
    assert e[0] == d[0] && e[1] == d[1] && e[2] == d[2] && e[3] == d[3];
    assert ZerosFrom(e, |d|);
    if Has(d[3], EXTRA_FIELD) {
      NameEndsInZeros(e, |d|, d[3], 10 + Word(e, 10) + 2, |d| + 65537);
    } else {
      NameEndsInZeros(e, |d|, d[3], 10, |d|);
    }
  }

  /** Whatever follows, the stream does not begin with a header. */
  ghost predicate Hopeless(d: seq<byte>) {
    forall more: seq<byte>, n: nat | n <= |d + more| :: !IsHeader((d + more)[..n])
  }

  /** Ten bytes are rejected exactly if no header can begin with what has been seen. */
  lemma RejectionIsExact(d: seq<byte>)
    ensures Check(d) == GzipBad <==> |d| >= 10 && Hopeless(d)
  {
    if Check(d) == GzipBad {
      forall more: seq<byte>, n: nat | n <= |d + more| ensures !IsHeader((d + more)[..n]) {
        VerdictIsStable(d, more);
        CheckIsExact(d + more, n);
      }
    } else if |d| >= 10 {
      var zeros := seq(ENOUGH, i => 0 as byte);
      StartCanBeCompleted(d, zeros);
      var n := Check(d + zeros).hlen;
      CheckIsExact(d + zeros, n);
      assert IsHeader((d + zeros)[..n]);
    }
  }

  // ---------------------------------------------------------------- the decoder

  datatype ZState = Uninit | Init | GzipHeader | GzipInflating | InitGzip

  datatype Code = OK | BadContentEncoding | OutOfMemory

  type Error = c: Code | c != OK witness OutOfMemory

  /** What inflate_stream reports: it wants more, the compressed stream has ended, or it failed. */
  datatype Sink = More | Ended | Failed(error: Error)

  /** What zlib and the allocator answer during one call. */
  datatype Io = Io(initOk: bool, allocOk: bool, sink: Sink)

  /** zlib_init, the block kept while the header is incomplete, and all bytes handed to inflate_stream. */
  datatype Z = Z(state: ZState, held: seq<byte>, inflated: seq<byte>)

  /** The header is complete, still short, or bad, once `seen` has arrived. */
  function Decide(z: Z, seen: seq<byte>, io: Io): (Z, Code) {
    match Check(seen)
    case GzipOk(hlen) => Inflate(Z(GzipInflating, [], z.inflated), seen[hlen..], io)
    case GzipUnderflow =>
      if io.allocOk then (Z(GzipHeader, seen, z.inflated), OK) else (Z(Uninit, [], z.inflated), OutOfMemory)
    case GzipBad => (Z(Uninit, [], z.inflated), BadContentEncoding)
  }

  /** inflate_stream is called when there is something to inflate. */
  function Inflate(z: Z, data: seq<byte>, io: Io): (Z, Code) {
    if data == [] then (z, OK) else Sunk(z, data, io)
  }

  /** inflate_stream takes the data; the end of the stream and a failure both end the decoder. */
  function Sunk(z: Z, data: seq<byte>, io: Io): (Z, Code) {
    match io.sink
    case More => (z.(inflated := z.inflated + data), OK)
    case Ended => (Z(Uninit, [], z.inflated + data), OK)
    case Failed(c) => (Z(Uninit, [], z.inflated + data), c)
  }

  /** The state in which a chunk is taken: zlib is set up on the first one. */
  function Ready(transparent: bool, z: Z): ZState {
    if z.state != Uninit then z.state else if transparent then InitGzip else Init
  }

  function WriteStep(transparent: bool, z: Z, chunk: seq<byte>, io: Io): (Z, Code) {
    if z.state == Uninit && !io.initOk then (z, BadContentEncoding)
    else
      match Ready(transparent, z)
      case Init => Decide(z, chunk, io)
      case GzipHeader =>
        if io.allocOk then Decide(z, z.held + chunk, io) else (Z(Uninit, [], z.inflated), OutOfMemory)
      case InitGzip => Sunk(z.(state := InitGzip), chunk, io)
      case state => Inflate(z.(state := state), chunk, io)
  }

  /** struct SingleRequest's zlib part and Curl_unencode_gzip_write. */
  class GzipDecoder {
    const transparent: bool   // zlib 1.2.0.4 or later parses the header itself
    var zlibInit: ZState
    var block: seq<byte>      // next_in and avail_in while the header is incomplete
    var inflated: seq<byte>

    ghost function View(): Z
      reads this
    {
      Z(zlibInit, block, inflated)
    }

    /** A header is kept only while it is short. */
    ghost predicate Valid()
      reads this
    {
      && (zlibInit == GzipHeader ==> Check(block) == GzipUnderflow)
      && (zlibInit != GzipHeader ==> block == [])
      && zlibInit != Init
    }

    constructor (transparent: bool)
      ensures this.transparent == transparent && View() == Z(Uninit, [], []) && Valid()
    {
      this.transparent := transparent;
      zlibInit, block, inflated := Uninit, [], [];
    }

    /** inflate_stream, as a byte sink. */
    method InflateStream(data: seq<byte>, io: Io) returns (result: Code)
      modifies this
      ensures (View(), result) == Sunk(old(View()), data, io)
    {
      inflated := inflated + data;
      result := if io.sink.Failed? then io.sink.error else OK;
      if io.sink != More {
        zlibInit, block := Uninit, [];
      }
    }

    /** Curl_unencode_gzip_write. */
    method Write(str: seq<byte>, io: Io) returns (result: Code)
      requires Valid()
      modifies this
      ensures Valid()
      ensures (View(), result) == WriteStep(transparent, old(View()), str, io)
    {
      if zlibInit == Uninit {
        if !io.initOk {
          return BadContentEncoding;
        }
        zlibInit := if transparent then InitGzip else Init;
      }
      if zlibInit == InitGzip {
        // zlib takes the whole chunk, even an empty one
        result := InflateStream(str, io);
        return;
      }
      var next_in := 0;
      match zlibInit {
        case Init =>
          var verdict := CheckGzipHeader(str);
          match verdict {
            case GzipOk(hlen) =>
              next_in := hlen;
              zlibInit := GzipInflating;
            case GzipUnderflow =>
              if !io.allocOk {
                zlibInit := Uninit;
                return OutOfMemory;
              }
              zlibInit, block := GzipHeader, str;
              return OK;
            case GzipBad =>
              zlibInit := Uninit;
              return BadContentEncoding;
          }
        case GzipHeader =>
          if !io.allocOk {
            zlibInit, block := Uninit, [];
            return OutOfMemory;
          }
          var kept := |block|;
          block := block + str;
          var verdict := CheckGzipHeader(block);
          match verdict {
            case GzipOk(hlen) =>
              // the header ends inside the new data, not in the kept block
              HeaderEndsInNewData(old(block), str);
              next_in := hlen - kept;
              assert block[hlen..] == str[next_in..];
              zlibInit, block := GzipInflating, [];
            case GzipUnderflow =>
              return OK;
            case GzipBad =>
              zlibInit, block := Uninit, [];
              return BadContentEncoding;
          }
        case _ =>
      }
      if next_in == |str| {
        return OK;
      }
      result := InflateStream(str[next_in..], io);
    }
  }

  /** The kept block was short, so the end of the header is a position in the chunk that completes it. */
  lemma HeaderEndsInNewData(kept: seq<byte>, chunk: seq<byte>)
    requires Check(kept) == GzipUnderflow && Check(kept + chunk).GzipOk?
    ensures |kept| < Check(kept + chunk).hlen <= |kept| + |chunk|
  {
    var d := kept + chunk;
    var n := Check(d).hlen;
    if n <= |kept| {
      CheckIsExact(d, n);
      assert d[..n] == kept[..n] && kept == kept[..n] + kept[n..];
      HeaderIsAccepted(kept[..n], kept[n..]);
    }
  }

  // ---------------------------------------------------------------- chunk invariance

  function Concat(chunks: seq<seq<byte>>): seq<byte> {
    if chunks == [] then [] else chunks[0] + Concat(chunks[1..])
  }

  const GOOD := Io(true, true, More)

  /** Feeding chunks until one fails. */
  function Feed(transparent: bool, z: Z, chunks: seq<seq<byte>>): (Z, Code)
    decreases |chunks|
  {
    if chunks == [] then (z, OK)
    else
      var (z', c) := WriteStep(transparent, z, chunks[0], GOOD);
      if c != OK then (z', c) else Feed(transparent, z', chunks[1..])
  }

  /** The decoder after `seen`, whatever the chunks were. */
  ghost predicate After(z: Z, seen: seq<byte>) {
    match Check(seen)
    case GzipOk(hlen) => z == Z(GzipInflating, [], seen[hlen..])
    case GzipBad => false
    case GzipUnderflow => z == Z(GzipHeader, seen, []) || (z == Z(Uninit, [], []) && seen == [])
  }

  /** The effect of a chunk that completes what has been seen so far. */
  ghost predicate Extended(z: Z, c: Code, seen: seq<byte>) {
    if Check(seen) == GzipBad then c == BadContentEncoding && z.inflated == [] else c == OK && After(z, seen)
  }

  lemma DecideExtends(z: Z, seen: seq<byte>)
    requires z.inflated == []
    ensures var (z', c) := Decide(z, seen, GOOD); Extended(z', c, seen)
  {
  }

  lemma InflateExtends(seen: seq<byte>, chunk: seq<byte>)
    requires Check(seen).GzipOk?
    ensures var (z', c) := Inflate(Z(GzipInflating, [], seen[Check(seen).hlen..]), chunk, GOOD);
            Extended(z', c, seen + chunk)
  {
    VerdictIsStable(seen, chunk);
    var n := Check(seen).hlen;
    assert (seen + chunk)[n..] == seen[n..] + chunk;
  }

  lemma WriteExtends(z: Z, seen: seq<byte>, chunk: seq<byte>)
    requires After(z, seen)
    ensures var (z', c) := WriteStep(false, z, chunk, GOOD); Extended(z', c, seen + chunk)
  {
    if Check(seen).GzipOk? {
      InflateExtends(seen, chunk);
    } else {
      assert seen == [] ==> seen + chunk == chunk;
      DecideExtends(z, seen + chunk);
    }
  }

  lemma ConcatStep(seen: seq<byte>, chunks: seq<seq<byte>>)
    requires chunks != []
    ensures seen + Concat(chunks) == (seen + chunks[0]) + Concat(chunks[1..])
  {
  }

  lemma BadStaysBad(z: Z, c: Code, seen: seq<byte>, more: seq<byte>)
    requires Extended(z, c, seen) && c != OK
    ensures Extended(z, c, seen + more)
  {
    VerdictIsStable(seen, more);
  }

  lemma {:induction false} FeedExtends(z: Z, seen: seq<byte>, chunks: seq<seq<byte>>)
    requires After(z, seen)
    ensures var (z', c) := Feed(false, z, chunks); Extended(z', c, seen + Concat(chunks))
    decreases |chunks|
  {
    if chunks == [] {
      assert seen + [] == seen;
    } else {
      WriteExtends(z, seen, chunks[0]);
      ConcatStep(seen, chunks);
      var (z', c) := WriteStep(false, z, chunks[0], GOOD);
      if c == OK {
        FeedExtends(z', seen + chunks[0], chunks[1..]);
      } else {
        BadStaysBad(z', c, seen + chunks[0], Concat(chunks[1..]));
      }
    }
  }

  /** Chunk invariance: after any chunks the decoder is where the whole stream would have put it. */
  lemma ChunksAreOneStream(chunks: seq<seq<byte>>)
    ensures var (z, c) := Feed(false, Z(Uninit, [], []), chunks);
            match Check(Concat(chunks))
            case GzipOk(hlen) => c == OK && z.inflated == Concat(chunks)[hlen..]
            case GzipBad => c == BadContentEncoding && z.inflated == []
            case GzipUnderflow => c == OK && z.inflated == []
  {
    assert [] + Concat(chunks) == Concat(chunks);
    FeedExtends(Z(Uninit, [], []), [], chunks);
  }

  /**
   The same in terms of the format alone: zlib gets what follows the header; a stream of ten bytes or more that
   cannot begin with a header is rejected; otherwise the decoder accepts and waits.
   */
  lemma ChunksDoNotMatter(chunks: seq<seq<byte>>)
    ensures var (z, c) := Feed(false, Z(Uninit, [], []), chunks);
            var stream := Concat(chunks);
            && (c == BadContentEncoding <==> |stream| >= 10 && Hopeless(stream))
            && (c == OK || c == BadContentEncoding)
            && (forall n: nat | n <= |stream| && IsHeader(stream[..n]) :: c == OK && z.inflated == stream[n..])
            && ((forall n: nat | n <= |stream| :: !IsHeader(stream[..n])) ==> z.inflated == [])
  {
    var stream := Concat(chunks);
    ChunksAreOneStream(chunks);
    RejectionIsExact(stream);
    forall n: nat | n <= |stream| ensures IsHeader(stream[..n]) <==> Check(stream) == GzipOk(n) {
      CheckIsExact(stream, n);
    }
    if Check(stream).GzipOk? {
      assert IsHeader(stream[..Check(stream).hlen]);
    }
  }

  /** In the terms of RFC 1952: every member header is stripped, and nothing else. */
  lemma EveryHeaderIsStripped(h: Header, body: seq<byte>, chunks: seq<seq<byte>>)
    requires WellFormed(h) && Concat(chunks) == Print(h) + body
    ensures var (z, c) := Feed(false, Z(Uninit, [], []), chunks);
            c == OK && z.inflated == body
  {
    PrintedHeaderIsAccepted(h, body);
    ChunksAreOneStream(chunks);
  }

  /** A zlib that parses the header itself gets every byte. */
  lemma {:induction false} TransparentPassesAll(z: Z, chunks: seq<seq<byte>>)
    requires z.state in {Uninit, InitGzip}
    ensures var (z', c) := Feed(true, z, chunks);
            c == OK && z'.inflated == z.inflated + Concat(chunks)
    decreases |chunks|
  {
    if chunks != [] {
      var (z', c) := WriteStep(true, z, chunks[0], GOOD);
      TransparentPassesAll(z', chunks[1..]);
      assert z.inflated + chunks[0] + Concat(chunks[1..]) == z.inflated + Concat(chunks);
    }
  }

  /** A failure of zlib while data is inflated is reported, and the decoder starts afresh, as it does after the end. */
  lemma ZlibDecides(transparent: bool, z: Z, seen: seq<byte>, chunk: seq<byte>, io: Io)
    requires After(z, seen) && Check(seen).GzipOk? && chunk != []
    ensures var (z', c) := WriteStep(transparent, z, chunk, io);
            && z'.inflated == z.inflated + chunk
            && c == (if io.sink.Failed? then io.sink.error else OK)
            && (z'.state == Uninit <==> io.sink != More) && z'.held == []
  {
  }

  /** Without memory for the unfinished header, or without zlib, nothing is inflated and the call fails. */
  lemma HeaderNeedsMemory(z: Z, seen: seq<byte>, chunk: seq<byte>, io: Io)
    requires After(z, seen) && Check(seen + chunk) == GzipUnderflow
    ensures var (z', c) := WriteStep(false, z, chunk, io);
            && z'.inflated == []
            && (z.state == Uninit && !io.initOk ==> c == BadContentEncoding)
            && (!io.allocOk && (z.state != Uninit || io.initOk) ==> c == OutOfMemory && z'.held == [])
  {
    if Check(seen) != GzipUnderflow {
      VerdictIsStable(seen, chunk);
    }
    assert seen == [] ==> seen + chunk == chunk;
  }
}
