/**
 Quoted strings of digest authentication (curl_sasl.c): the printer sasl_digest_string_quoted and
 the parser sasl_digest_get_pair, which must agree.
 */
module DigestText {
  import opened Basics

  const MAX_VALUE := 256      // DIGEST_MAX_VALUE_LENGTH
  const MAX_CONTENT := 1024   // DIGEST_MAX_CONTENT_LENGTH

  // ---------------------------------------------------------------- printing

  predicate IsSpecial(c: char) {
    c == '"' || c == '\\'
  }

  /** A backslash before every quote and every backslash. */
  function Quoted(s: string): (q: string)
    ensures |s| <= |q| <= 2 * |s|
  {
    if s == "" then "" else QuotedChar(s[0]) + Quoted(s[1..])
  }

  function QuotedChar(c: char): string {
    if IsSpecial(c) then ['\\', c] else [c]
  }

  /** Escapes stripped. */
  function Unescape(t: string): string {
    if t == "" then ""
    else if t[0] == '\\' && |t| > 1 then [t[1]] + Unescape(t[2..])
    else [t[0]] + Unescape(t[1..])
  }

  lemma Assoc(a: string, b: string, c: string)
    ensures a + b + c == a + (b + c)
  {
  }

  /** The body of the second loop. */
  method AppendQuoted(buffer: array<char>, d: nat, c: char) returns (d': nat)
    requires d + |QuotedChar(c)| < buffer.Length
    modifies buffer
    ensures d' == d + |QuotedChar(c)| && buffer[..d'] == old(buffer[..d]) + QuotedChar(c)
  {
    d' := d;
    if IsSpecial(c) {
      buffer[d'] := '\\';
      d' := d' + 1;
    }
    buffer[d'] := c;
    d' := d' + 1;
    assert buffer[..d] == old(buffer[..d]);
  }

  /** sasl_digest_string_quoted: the buffer has exactly the size needed. */
  method StringQuoted(source: string, allocOk: bool) returns (dest: array?<char>)
    requires NUL !in source
    ensures dest == null <==> !allocOk
    ensures dest != null ==> fresh(dest) && dest[..] == Quoted(source) + [NUL]
  {
    var n := 1;
    var s := 0;
    while s < |source|
      invariant s <= |source| && n + |Quoted(source[s..])| == |Quoted(source)| + 1
    {
      assert source[s..][1..] == source[s + 1..];
      n := n + 1;
      if IsSpecial(source[s]) {
        n := n + 1;
      }
      s := s + 1;
    }
    if !allocOk {
      return null;
    }
    var buffer := new char[n];
    var d: nat := 0;
    s := 0;
    while s < |source|
      invariant s <= |source| && d + |Quoted(source[s..])| + 1 == n
      invariant buffer[..d] + Quoted(source[s..]) == Quoted(source)
    {
      assert source[s..][1..] == source[s + 1..];
      Assoc(buffer[..d], QuotedChar(source[s]), Quoted(source[s + 1..]));
      d := AppendQuoted(buffer, d, source[s]);
      s := s + 1;
    }
    buffer[d] := NUL;
    assert buffer[..d] == Quoted(source);
    dest := buffer;
  }

  // ---------------------------------------------------------------- parsing

  /** The key loop: up to '=' or the end, and at most `room` characters. */
  function KeyEnd(str: string, i: nat, room: nat): (j: nat)
    requires i <= |str|
    ensures i <= j <= |str| && j <= i + room
    decreases |str| - i
  {
    if i == |str| || str[i] == '=' || room == 0 then i else KeyEnd(str, i + 1, room - 1)
  }

  /** What the content loop stores, and where it leaves the input. */
  datatype Scanned = Scanned(content: string, end: nat)

  /** A comma ends unquoted text, an unescaped quote ends quoted text, a line end ends both. */
  predicate Stops(c: char, quoted: bool, escape: bool) {
    (c == ',' && !quoted) || c == '\r' || c == '\n' || (c == '"' && !escape && quoted)
  }

  /** The content loop from position `i`, with `done` stored already and `room` left. */
  function Scan(str: string, i: nat, quoted: bool, escape: bool, room: nat, done: string): (r: Scanned)
    requires i <= |str|
    ensures i <= r.end <= |str| && |done| <= |r.content| <= |done| + room
    decreases |str| - i
  {
    if i == |str| || room == 0 then Scanned(done, i)
    else if Stops(str[i], quoted, escape) then Scanned(done, i + 1)
    else Scan(str, i + 1, quoted, str[i] == '\\' && !escape, room - 1, done + [str[i]])
  }

  /** A pair as parsed: the key, the content, and the position after it. */
  datatype Pair = Pair(key: string, content: string, end: nat)

  function ParsePair(str: string): Option<Pair> {
    var k := KeyEnd(str, 0, MAX_VALUE - 1);
    if k == |str| || str[k] != '=' then None
    else
      var quoted := k + 1 < |str| && str[k + 1] == '"';
      var r := Scan(str, if quoted then k + 2 else k + 1, quoted, false, MAX_CONTENT - 1, "");
      Some(Pair(str[..k], r.content, r.end))
  }

  /** The C string in a buffer. */
  ghost predicate Holds(buffer: array<char>, s: string)
    reads buffer
  {
    |s| < buffer.Length && buffer[..|s|] == s && buffer[|s|] == NUL
  }

  /** `*content++ = ch` */
  method Store(content: array<char>, n: nat, ch: char)
    requires n < content.Length
    modifies content
    ensures content[..n + 1] == old(content[..n]) + [ch]
  {
    content[n] := ch;
    assert content[..n] == old(content[..n]);
  }

  /** The content loop of sasl_digest_get_pair. */
  method GetContent(str: string, start: nat, startsWithQuote: bool, content: array<char>) returns (end: nat)
    requires start <= |str| && NUL !in str && content.Length >= MAX_CONTENT
    modifies content
    ensures var r := Scan(str, start, startsWithQuote, false, MAX_CONTENT - 1, "");
            end == r.end && Holds(content, r.content)
  {
    ghost var all := Scan(str, start, startsWithQuote, false, MAX_CONTENT - 1, "");
    var escape := false;
    var c := MAX_CONTENT - 1;
    var n: nat := 0;
    end := start;
    assert content[..n] == "";
    while end < |str| && c > 0
      invariant start <= end <= |str| && 0 <= c <= MAX_CONTENT - 1
      invariant n + c <= MAX_CONTENT - 1
      invariant Scan(str, end, startsWithQuote, escape, c, content[..n]) == all
      decreases |str| - end
    {
      c := c - 1;
      var ch := str[end];
      var stored := true;
      if ch == '\\' && !escape {
        escape := true;
      } else if Stops(ch, startsWithQuote, escape) {
        // the end
        c, stored := 0, false;
      } else {
        escape := false;
      }
      if stored {
        Store(content, n, ch);
        n := n + 1;
      }
      end := end + 1;
    }
    assert content[..n] == all.content;
    content[n] := NUL;
    assert content[..n] == all.content;
  }

  /** sasl_digest_get_pair. */
  method GetPair(str: string, value: array<char>, content: array<char>) returns (failed: bool, endptr: nat)
    requires NUL !in str
    requires value != content && value.Length >= MAX_VALUE && content.Length >= MAX_CONTENT
    modifies value, content
    ensures failed <==> ParsePair(str).None?
    ensures !failed ==> var p := ParsePair(str).value;
                        endptr == p.end && Holds(value, p.key) && Holds(content, p.content)
  {
    var c := MAX_VALUE - 1;
    var i := 0;
    while i < |str| && str[i] != '=' && c != 0
      invariant i <= |str| && c == MAX_VALUE - 1 - i && c >= 0
      invariant value[..i] == str[..i]
      invariant KeyEnd(str, i, c) == KeyEnd(str, 0, MAX_VALUE - 1)
    {
      value[i] := str[i];
      i, c := i + 1, c - 1;
    }
    value[i] := NUL;
    assert value[..i] == str[..i];
    if i == |str| || str[i] != '=' {
      return true, 0;
    }
    var at := i + 1;
    var startsWithQuote := at < |str| && str[at] == '"';
    if startsWithQuote {
      at := at + 1;
    }
    endptr := GetContent(str, at, startsWithQuote, content);
    failed := false;
  }

  // ---------------------------------------------------------------- agreement

  lemma {:induction false} UnescapeQuoted(s: string)
    ensures Unescape(Quoted(s)) == s
  {
    if s != "" {
      UnescapeQuoted(s[1..]);
      var q := Quoted(s);
      if IsSpecial(s[0]) {
        assert q[2..] == Quoted(s[1..]);
      } else {
        assert q[1..] == Quoted(s[1..]);
      }
    }
  }

  /** The text `t` stands at `i`. */
  predicate HasAt(str: string, i: nat, t: string) {
    i + |t| <= |str| && str[i..i + |t|] == t
  }

  lemma HasParts(str: string, i: nat, a: string, b: string)
    requires HasAt(str, i, a + b)
    ensures HasAt(str, i, a) && HasAt(str, i + |a|, b)
  {
    var t := str[i..i + |a + b|];
    assert t[..|a|] == a && t[|a|..] == b;
    assert str[i..i + |a|] == t[..|a|] && str[i + |a|..i + |a| + |b|] == t[|a|..];
  }

  /** One character of the source, as the parser meets it in quoted form. */
  lemma ScanOne(str: string, i: nat, c: char, room: nat, done: string)
    requires c != '\r' && c != '\n' && room > 0 && HasAt(str, i, QuotedChar(c))
    ensures var n := |QuotedChar(c)|;
            Scan(str, i, true, false, room, done)
            == if room >= n then Scan(str, i + n, true, false, room - n, done + QuotedChar(c))
               else Scanned(done + ['\\'], i + 1)
  {
    var t := str[i..i + |QuotedChar(c)|];
    assert t[0] == str[i];
    if IsSpecial(c) {
      assert t[1] == str[i + 1] == c;
      assert done + ['\\'] + [c] == done + QuotedChar(c);
    }
  }

  /** Scanning walks over `t` at `i` and stores it. */
  predicate WalksOver(str: string, i: nat, t: string, room: nat, done: string) {
    && i + |t| <= |str| && |t| <= room
    && Scan(str, i, true, false, room, done) == Scan(str, i + |t|, true, false, room - |t|, done + t)
  }

  lemma ScanHead(str: string, i: nat, c: char, tail: string, room: nat, done: string)
    requires c != '\r' && c != '\n' && room >= |QuotedChar(c)| && HasAt(str, i, QuotedChar(c) + tail)
    ensures HasAt(str, i + |QuotedChar(c)|, tail) && WalksOver(str, i, QuotedChar(c), room, done)
  {
    HasParts(str, i, QuotedChar(c), tail);
    ScanOne(str, i, c, room, done);
  }

  lemma WalkOn(str: string, i: nat, a: string, b: string, room: nat, done: string)
    requires WalksOver(str, i, a, room, done) && WalksOver(str, i + |a|, b, room - |a|, done + a)
    ensures WalksOver(str, i, a + b, room, done)
  {
    Assoc(done, a, b);
  }

  /** The parser walks over a quoted text that fits, and stores it. */
  lemma {:induction false} ScanFits(str: string, i: nat, s: string, room: nat, done: string)
    requires HasAt(str, i, Quoted(s)) && |Quoted(s)| <= room && '\r' !in s && '\n' !in s
    ensures WalksOver(str, i, Quoted(s), room, done)
    decreases |s|
  {
    if s == "" {
      assert done + "" == done;
    } else {
      var head, tail := QuotedChar(s[0]), Quoted(s[1..]);
      assert s[0] in s;
      ScanHead(str, i, s[0], tail, room, done);
      ScanFits(str, i + |head|, s[1..], room - |head|, done + head);
      WalkOn(str, i, head, tail, room, done);
    }
  }

  /** A quoted text that does not fit is cut off. */
  lemma {:induction false} ScanOverflows(str: string, i: nat, s: string, room: nat, done: string)
    requires HasAt(str, i, Quoted(s)) && |Quoted(s)| > room && '\r' !in s && '\n' !in s
    ensures var r := Scan(str, i, true, false, room, done);
            |r.content| == |done| + room && r.end == i + room
    decreases |s|
  {
    if room > 0 {
      var head, tail := QuotedChar(s[0]), Quoted(s[1..]);
      assert s[0] in s;
      HasParts(str, i, head, tail);
      ScanOne(str, i, s[0], room, done);
      if room >= |head| {
        ScanOverflows(str, i + |head|, s[1..], room - |head|, done + head);
      }
    }
  }

  lemma {:induction false} KeyFound(key: string, tail: string, i: nat, room: nat)
    requires i <= |key| <= i + room && '=' !in key && tail != "" && tail[0] == '='
    ensures KeyEnd(key + tail, i, room) == |key|
    decreases |key| - i
  {
    if i < |key| {
      assert (key + tail)[i] == key[i] && key[i] in key;
      KeyFound(key, tail, i + 1, room - 1);
    }
  }

  /** A header field `key="..."` with a quoted string, and what follows it. */
  function Field(key: string, s: string, rest: string): string {
    key + ("=\"" + Quoted(s) + "\"" + rest)
  }

  /**
   Agreement: the pair is found, its content is the quoted text, which unescapes to the string, and
   the parser stops just past the closing quote; that happens exactly when the quoted form leaves
   room for the quote, that is, up to 1022 characters.
   */
  lemma PrintedPairIsParsed(key: string, s: string, rest: string)
    requires '=' !in key && |key| < MAX_VALUE
    requires '\r' !in s && '\n' !in s
    ensures var p := ParsePair(Field(key, s, rest));
            && p.Some? && p.value.key == key
            && (|Quoted(s)| <= MAX_CONTENT - 2 <==> p.value.end == |key| + |Quoted(s)| + 3)
            && (|Quoted(s)| <= MAX_CONTENT - 1 <==> p.value.content == Quoted(s))
            && (|Quoted(s)| <= MAX_CONTENT - 1 ==> Unescape(p.value.content) == s)
  {
    var str, q := Field(key, s, rest), Quoted(s);
    KeyFound(key, "=\"" + q + "\"" + rest, 0, MAX_VALUE - 1);
    FieldParts(key, q, '"', rest);
    QuotedContent(str, |key| + 2, s);
    UnescapeQuoted(s);
  }

  lemma QuotedContent(str: string, i: nat, s: string)
    requires HasAt(str, i, Quoted(s)) && i + |Quoted(s)| < |str| && str[i + |Quoted(s)|] in {'"', '\r', '\n'}
    requires '\r' !in s && '\n' !in s
    ensures var q, r := Quoted(s), Scan(str, i, true, false, MAX_CONTENT - 1, "");
            && (|q| <= MAX_CONTENT - 2 <==> r.end == i + |q| + 1)
            && (|q| <= MAX_CONTENT - 1 <==> r.content == q)
  {
    var q := Quoted(s);
    if |q| <= MAX_CONTENT - 1 {
      ScanFits(str, i, s, MAX_CONTENT - 1, "");
      assert "" + q == q;
    } else {
      ScanOverflows(str, i, s, MAX_CONTENT - 1, "");
    }
  }

  lemma FieldParts(key: string, q: string, end: char, rest: string)
    ensures var str, k := key + ("=\"" + q + [end] + rest), |key|;
            && str[..k] == key && str[k] == '=' && str[k + 1] == '"'
            && HasAt(str, k + 2, q) && str[k + 2 + |q|] == end
  {
  }

  /** A line end inside quoted text ends it like the closing quote. */
  lemma LineEndEndsQuotedText(key: string, s: string, end: char, rest: string)
    requires '=' !in key && |key| <= 255 && end in {'\r', '\n'}
    requires '\r' !in s && '\n' !in s
    ensures var p := ParsePair(key + ("=\"" + Quoted(s) + [end] + rest));
            && p.Some? && p.value.key == key
            && (|Quoted(s)| <= 1022 <==> p.value.end == |key| + |Quoted(s)| + 3)
            && (|Quoted(s)| <= 1023 <==> p.value.content == Quoted(s))
  {
    var q := Quoted(s);
    KeyFound(key, "=\"" + q + [end] + rest, 0, MAX_VALUE - 1);
    FieldParts(key, q, end, rest);
    QuotedContent(key + ("=\"" + q + [end] + rest), |key| + 2, s);
  }

  // ---------------------------------------------------------------- unquoted values

  /** Text that can stand without quotes. */
  predicate Token(v: string) {
    ',' !in v && '\r' !in v && '\n' !in v
  }

  /** Unquoted text is stored up to the stop behind it, or as far as there is room; backslashes mean nothing. */
  lemma {:induction false} ScanToken(str: string, i: nat, v: string, escape: bool, room: nat, done: string)
    requires HasAt(str, i, v) && Token(v)
    requires i + |v| == |str| || str[i + |v|] in {',', '\r', '\n'}
    ensures var r := Scan(str, i, false, escape, room, done);
            if |v| <= room then
              r.content == done + v && r.end == i + |v| + (if i + |v| < |str| && |v| < room then 1 else 0)
            else
              |r.content| == |done| + room && r.end == i + room
    decreases |v|
  {
    if v == "" {
      assert done + v == done;
    } else if room > 0 {
      assert str[i] == v[0] && v[0] in v;
      HasParts(str, i, v[..1], v[1..]);
      assert v == v[..1] + v[1..];
      ScanToken(str, i + 1, v[1..], str[i] == '\\' && !escape, room - 1, done + [str[i]]);
      assert done + [v[0]] + v[1..] == done + v;
    }
  }

  /**
   An unquoted value, followed by nothing or by a comma or a line end: the pair is found; the content is the value
   exactly up to 1023 characters, and the parser stops just past the stop exactly up to 1022.
   */
  lemma TokenPairIsParsed(key: string, v: string, rest: string)
    requires '=' !in key && |key| <= 255
    requires Token(v) && (v != "" ==> v[0] != '"') && (rest != "" ==> rest[0] in {',', '\r', '\n'})
    ensures var p := ParsePair(key + ("=" + v + rest));
            && p.Some? && p.value.key == key
            && (|v| <= 1023 <==> p.value.content == v)
            && (rest != "" ==> (|v| <= 1022 <==> p.value.end == |key| + |v| + 2))
            && (rest == "" ==> (|v| <= 1023 <==> p.value.end == |key| + |v| + 1))
  {
    var tail, k := "=" + v + rest, |key|;
    var str := key + tail;
    KeyFound(key, tail, 0, MAX_VALUE - 1);
    assert str[k] == '=' && str[k + 1..k + 1 + |v|] == v;
    assert k + 1 < |str| ==> str[k + 1] == (v + rest)[0];
    assert rest != "" ==> str[k + 1 + |v|] == rest[0];
    ScanToken(str, k + 1, v, false, MAX_CONTENT - 1, "");
    assert "" + v == v;
  }

  // ---------------------------------------------------------------- failure

  lemma {:induction false} KeyEndIsFirst(str: string, i: nat, room: nat)
    requires i <= |str|
    ensures var j := KeyEnd(str, i, room);
            && '=' !in str[i..j] && (j == |str| || str[j] == '=' || j == i + room)
    decreases |str| - i
  {
    if i < |str| && str[i] != '=' && room > 0 {
      KeyEndIsFirst(str, i + 1, room - 1);
      var j := KeyEnd(str, i, room);
      assert str[i..j] == [str[i]] + str[i + 1..j];
    }
  }

  /** A pair is found exactly if there is a '=' among the first 256 characters; the key is what precedes the first. */
  lemma KeyExactly(str: string)
    ensures ParsePair(str).None? <==> forall k | 0 <= k < |str| && k <= 255 :: str[k] != '='
    ensures ParsePair(str).Some? ==>
              var key := ParsePair(str).value.key; |key| <= 255 && '=' !in key && key + "=" <= str
  {
    var j := KeyEnd(str, 0, MAX_VALUE - 1);
    KeyEndIsFirst(str, 0, MAX_VALUE - 1);
    forall k | 0 <= k < j ensures str[k] != '=' {
      assert str[0..j][k] == str[k];
    }
    assert str[0..j] == str[..j];
  }
}
