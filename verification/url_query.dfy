// `URLSearchParams.toString()`: the application/x-www-form-urlencoded
// serializer of the WHATWG URL standard (section 5.2). Each name and value is
// encoded as UTF-8; the bytes of ASCII letters, digits and `*-._` stay as they
// are, a space becomes `+`, and every other byte becomes `%XY` with
// upper-case hex digits. Pairs are written `name=value` and joined with `&`.
//
// The decoder below is the matching parser, written independently, and the
// round-trip lemmas tie the two together.

module UrlQuery {
  import opened Wrappers

  /** A character the serializer leaves unencoded. */
  predicate IsUnreserved(c: char) {
    ('a' <= c <= 'z') || ('A' <= c <= 'Z') || ('0' <= c <= '9') || c in "*-._"
  }

  predicate AllUnreserved(s: string) {
    forall i :: 0 <= i < |s| ==> IsUnreserved(s[i])
  }

  // ---- UTF-8 ----

  predicate IsScalar(n: int) {
    (0 <= n < 0xD800) || (0xE000 <= n < 0x11_0000)
  }

  /** The UTF-8 bytes of one character. */
  function Utf8(c: char): (r: seq<int>)
    ensures 1 <= |r| <= 4
    ensures forall i :: 0 <= i < |r| ==> 0 <= r[i] < 256
    ensures |r| == 1 <==> c as int < 0x80
  {
    var n := c as int;
    if n < 0x80 then [n]
    else if n < 0x800 then [0xC0 + n / 64, 0x80 + n % 64]
    else if n < 0x1_0000 then [0xE0 + n / 4096, 0x80 + (n / 64) % 64, 0x80 + n % 64]
    else [0xF0 + n / 262144, 0x80 + (n / 4096) % 64, 0x80 + (n / 64) % 64, 0x80 + n % 64]
  }

  /** How many bytes a sequence starting with lead byte `b` has; 0 for a byte that cannot lead. */
  function Utf8Length(b: int): (n: nat)
    ensures n <= 4
  {
    if 0 <= b < 0x80 then 1
    else if 0xC0 <= b < 0xE0 then 2
    else if 0xE0 <= b < 0xF0 then 3
    else if 0xF0 <= b < 0xF8 then 4
    else 0
  }

  predicate IsContinuation(b: int) {
    0x80 <= b < 0xC0
  }

  /** The code point a well-formed UTF-8 sequence of 1 to 4 bytes stands for. */
  function Utf8Value(bs: seq<int>): int
    requires 1 <= |bs| <= 4
  {
    if |bs| == 1 then bs[0]
    else if |bs| == 2 then (bs[0] - 0xC0) * 64 + (bs[1] - 0x80)
    else if |bs| == 3 then (bs[0] - 0xE0) * 4096 + (bs[1] - 0x80) * 64 + (bs[2] - 0x80)
    else (bs[0] - 0xF0) * 262144 + (bs[1] - 0x80) * 4096 + (bs[2] - 0x80) * 64 + (bs[3] - 0x80)
  }

  /** Reading a character's UTF-8 bytes back gives the character. */
  lemma Utf8RoundTrip(c: char)
    ensures Utf8Length(Utf8(c)[0]) == |Utf8(c)|
    ensures forall i :: 1 <= i < |Utf8(c)| ==> IsContinuation(Utf8(c)[i])
    ensures Utf8Value(Utf8(c)) == c as int
  {
    var n := c as int;
    var r := Utf8(c);
    if n < 0x80 {
    } else if n < 0x800 {
      assert n == 64 * (n / 64) + n % 64;
    } else if n < 0x1_0000 {
      assert n / 64 == 64 * (n / 4096) + (n / 64) % 64;
      assert n == 64 * (n / 64) + n % 64;
    } else {
      assert n / 4096 == 64 * (n / 262144) + (n / 4096) % 64;
      assert n / 64 == 64 * (n / 4096) + (n / 64) % 64;
      assert n == 64 * (n / 64) + n % 64;
    }
  }

  // ---- Percent-encoding ----

  function HexDigit(d: int): (c: char)
    requires 0 <= d < 16
  {
    if d < 10 then ('0' as int + d) as char else ('A' as int + d - 10) as char
  }

  predicate IsHexChar(c: char) {
    ('0' <= c <= '9') || ('A' <= c <= 'F') || ('a' <= c <= 'f')
  }

  function HexValue(c: char): (d: int)
    requires IsHexChar(c)
    ensures 0 <= d < 16
  {
    if '0' <= c <= '9' then c as int - '0' as int
    else if 'A' <= c <= 'F' then c as int - 'A' as int + 10
    else c as int - 'a' as int + 10
  }

  /** `%XY` for one byte. */
  function PercentByte(b: int): (r: string)
    requires 0 <= b < 256
    ensures |r| == 3 && r[0] == '%'
  {
    ['%', HexDigit(b / 16), HexDigit(b % 16)]
  }

  function PercentBytes(bs: seq<int>): (r: string)
    requires forall i :: 0 <= i < |bs| ==> 0 <= bs[i] < 256
    ensures |r| == 3 * |bs|
  {
    if bs == [] then [] else PercentByte(bs[0]) + PercentBytes(bs[1..])
  }

  /** How the serializer writes one character. */
  function EncodeChar(c: char): (r: string)
    ensures r != []
    ensures r == [c] <==> IsUnreserved(c)
  {
    if c == ' ' then "+"
    else if IsUnreserved(c) then [c]
    else PercentBytes(Utf8(c))
  }

  /** The serializer's encoding of a name or a value. */
  function Encode(s: string): (r: string)
    ensures |r| >= |s|
  {
    if s == [] then [] else EncodeChar(s[0]) + Encode(s[1..])
  }

  function Pair(name: string, value: string): (r: string) {
    Encode(name) + "=" + Encode(value)
  }

  /** The parts joined with `sep` between neighbours. */
  function JoinWith(parts: seq<string>, sep: char): (r: string)
    requires parts != []
  {
    if |parts| == 1 then parts[0] else parts[0] + [sep] + JoinWith(parts[1..], sep)
  }

  function Pairs(pairs: seq<(string, string)>): (r: seq<string>)
    ensures |r| == |pairs|
  {
    if pairs == [] then [] else [Pair(pairs[0].0, pairs[0].1)] + Pairs(pairs[1..])
  }

  /** `URLSearchParams.toString()` for the pairs appended in order. */
  function Serialize(pairs: seq<(string, string)>): (r: string)
    ensures r == [] <==> pairs == []
  {
    if pairs == [] then [] else JoinWith(Pairs(pairs), '&')
  }

  // ---- The parser ----

  function FirstIndexOf(s: string, c: char): (r: Option<nat>)
    ensures r.Some? ==> r.value < |s| && s[r.value] == c && c !in s[..r.value]
    ensures r.None? <==> c !in s
  {
    if s == [] then None
    else if s[0] == c then Some(0)
    else match FirstIndexOf(s[1..], c)
      case None => None
      case Some(i) => assert s[..i + 1] == [s[0]] + s[1..][..i]; Some(i + 1)
  }

  /** Cuts `s` at every `sep`. */
  function SplitOn(s: string, sep: char): (parts: seq<string>)
    ensures parts != []
    decreases |s|
  {
    match FirstIndexOf(s, sep)
    case None => [s]
    case Some(i) => [s[..i]] + SplitOn(s[i + 1..], sep)
  }

  /** One `%XY` at the head of `t`, as a byte. */
  function ByteAt(t: string): (r: Option<int>)
    ensures r.Some? ==> |t| >= 3 && 0 <= r.value < 256
  {
    if |t| >= 3 && t[0] == '%' && IsHexChar(t[1]) && IsHexChar(t[2])
    then Some(16 * HexValue(t[1]) + HexValue(t[2]))
    else None
  }

  /** `n` consecutive `%XY` at the head of `t`. */
  function ReadBytes(t: string, n: nat): (r: Option<seq<int>>)
    ensures r.Some? ==> |r.value| == n && |t| >= 3 * n
  {
    if n == 0 then Some([])
    else match ByteAt(t)
      case None => None
      case Some(b) =>
        match ReadBytes(t[3..], n - 1)
        case None => None
        case Some(rest) => Some([b] + rest)
  }

  /** A character written as percent-encoded UTF-8 at the head of `t`, with its length. */
  function PercentChar(t: string): (r: Option<(char, nat)>)
    ensures r.Some? ==> 1 <= r.value.1 <= |t|
  {
    match ByteAt(t)
    case None => None
    case Some(b0) =>
      var len := Utf8Length(b0);
      if len == 0 then None
      else match ReadBytes(t, len)
        case None => None
        case Some(bs) =>
          if (forall i :: 1 <= i < len ==> IsContinuation(bs[i])) && IsScalar(Utf8Value(bs))
          then Some((Utf8Value(bs) as char, 3 * len))
          else None
  }

  /** The first decoded character of `t` and how much of `t` it took. */
  function DecodeStep(t: string): (r: (char, nat))
    requires t != []
    ensures 1 <= r.1 <= |t|
  {
    if t[0] == '+' then (' ', 1)
    else if t[0] == '%' then
      match PercentChar(t)
      case Some(x) => x
      case None => ('%', 1)
    else (t[0], 1)
  }

  /** Decoding of a name or a value: `+` is a space, `%XY` runs are UTF-8. */
  function Decode(t: string): (r: string)
    decreases |t|
  {
    if t == [] then [] else
      var step := DecodeStep(t);
      [step.0] + Decode(t[step.1..])
  }

  /** A `name=value` part; a part without `=` is a name with an empty value. */
  function ParsePair(part: string): (r: (string, string)) {
    match FirstIndexOf(part, '=')
    case None => (Decode(part), "")
    case Some(i) => (Decode(part[..i]), Decode(part[i + 1..]))
  }

  function ParseParts(parts: seq<string>): (r: seq<(string, string)>)
    ensures |r| == |parts|
  {
    if parts == [] then [] else [ParsePair(parts[0])] + ParseParts(parts[1..])
  }

  /** Parses a query string into its pairs, in order. */
  function ParseQuery(q: string): (r: seq<(string, string)>) {
    if q == [] then [] else ParseParts(SplitOn(q, '&'))
  }

  /** The value of the first pair with the given name. */
  function Lookup(pairs: seq<(string, string)>, name: string): (r: Option<string>)
    ensures r.Some? <==> exists i :: 0 <= i < |pairs| && pairs[i].0 == name
  {
    if pairs == [] then None
    else if pairs[0].0 == name then Some(pairs[0].1)
    else
      var r := Lookup(pairs[1..], name);
      assert forall i :: 1 <= i < |pairs| ==> pairs[i] == pairs[1..][i - 1];
      r
  }

  /** Looking a name up in two lists of pairs: the first list wins. */
  lemma {:induction false} LookupAppend(a: seq<(string, string)>, b: seq<(string, string)>, name: string)
    ensures Lookup(a + b, name) == if Lookup(a, name).Some? then Lookup(a, name) else Lookup(b, name)
  {
    if a != [] {
      assert (a + b)[1..] == a[1..] + b;
      LookupAppend(a[1..], b, name);
    } else {
      assert a + b == b;
    }
  }

  // ---- Round trip ----

  lemma HexRoundTrip(d: int)
    requires 0 <= d < 16
    ensures IsHexChar(HexDigit(d)) && HexValue(HexDigit(d)) == d
  {
  }

  lemma ByteAtPercent(b: int, rest: string)
    requires 0 <= b < 256
    ensures ByteAt(PercentByte(b) + rest) == Some(b)
  {
    HexRoundTrip(b / 16);
    HexRoundTrip(b % 16);
  }

  lemma {:induction false} ReadPercentBytes(bs: seq<int>, rest: string)
    requires forall i :: 0 <= i < |bs| ==> 0 <= bs[i] < 256
    ensures ReadBytes(PercentBytes(bs) + rest, |bs|) == Some(bs)
  {
    if bs != [] {
      var t := PercentBytes(bs) + rest;
      var tail := PercentBytes(bs[1..]) + rest;
      assert t == PercentByte(bs[0]) + tail;
      ByteAtPercent(bs[0], tail);
      assert t[3..] == tail;
      ReadPercentBytes(bs[1..], rest);
      assert [bs[0]] + bs[1..] == bs;
    }
  }

  /** A character's percent-encoded UTF-8 bytes are read back as that character. */
  lemma PercentCharOfUtf8(c: char, rest: string)
    ensures PercentChar(PercentBytes(Utf8(c)) + rest) == Some((c, |PercentBytes(Utf8(c))|))
  {
    var bs := Utf8(c);
    var t := PercentBytes(bs) + rest;
    ReadPercentBytes(bs, rest);
    Utf8RoundTrip(c);
    assert ByteAt(t) == Some(bs[0]);
  }

  /** Decoding meets the encoding of one character first and reads exactly it. */
  lemma DecodeStepEncodeChar(c: char, rest: string)
    ensures DecodeStep(EncodeChar(c) + rest) == (c, |EncodeChar(c)|)
  {
    if c != ' ' && !IsUnreserved(c) {
      var t := PercentBytes(Utf8(c)) + rest;
      assert EncodeChar(c) + rest == t;
      PercentCharOfUtf8(c, rest);
      assert t[0] == '%';
    }
  }

  /** `Decode(Encode(s)) == s`. */
  lemma {:induction false} DecodeEncode(s: string, rest: string)
    ensures Decode(Encode(s) + rest) == s + Decode(rest)
  {
    if s != [] {
      var t := Encode(s) + rest;
      var e := EncodeChar(s[0]);
      assert t == e + (Encode(s[1..]) + rest);
      DecodeStepEncodeChar(s[0], Encode(s[1..]) + rest);
      assert t[|e|..] == Encode(s[1..]) + rest;
      DecodeEncode(s[1..], rest);
      assert s == [s[0]] + s[1..];
    } else {
      assert Encode(s) + rest == rest;
    }
  }

  lemma DecodeOfEncode(s: string)
    ensures Decode(Encode(s)) == s
  {
    DecodeEncode(s, []);
    assert Encode(s) + [] == Encode(s);
  }

  /** The encoding never contains the characters that delimit pairs. */
  lemma {:induction false} EncodeHasNoDelimiters(s: string)
    ensures '&' !in Encode(s) && '=' !in Encode(s)
  {
    if s != [] {
      EncodeHasNoDelimiters(s[1..]);
      var c := s[0];
      if c != ' ' && !IsUnreserved(c) {
        PercentBytesCharset(Utf8(c));
      }
    }
  }

  lemma {:induction false} PercentBytesCharset(bs: seq<int>)
    requires forall i :: 0 <= i < |bs| ==> 0 <= bs[i] < 256
    ensures '&' !in PercentBytes(bs) && '=' !in PercentBytes(bs)
  {
    if bs != [] {
      PercentBytesCharset(bs[1..]);
    }
  }

  /** A string of unreserved characters is written as it is. */
  lemma {:induction false} EncodeUnreserved(s: string)
    requires AllUnreserved(s)
    ensures Encode(s) == s
  {
    if s != [] {
      EncodeUnreserved(s[1..]);
      assert s == [s[0]] + s[1..];
    }
  }

  lemma {:induction false} FirstIndexOfJoin(a: string, sep: char, b: string)
    requires sep !in a
    ensures FirstIndexOf(a + [sep] + b, sep) == Some(|a|)
  {
    var s := a + [sep] + b;
    if a != [] {
      assert s[1..] == a[1..] + [sep] + b;
      FirstIndexOfJoin(a[1..], sep, b);
    }
  }

  /** Cutting at `sep` undoes joining parts that do not contain it. */
  /** Splitting at the first separator takes off the part before it. */
  lemma SplitOnStep(head: string, sep: char, rest: string)
    requires sep !in head
    ensures SplitOn(head + [sep] + rest, sep) == [head] + SplitOn(rest, sep)
  {
    var s := head + [sep] + rest;
    FirstIndexOfJoin(head, sep, rest);
    assert s[..|head|] == head;
    assert s[|head| + 1..] == rest;
  }

  lemma {:induction false} SplitOnJoin(parts: seq<string>, sep: char)
    requires parts != []
    requires forall i :: 0 <= i < |parts| ==> sep !in parts[i]
    ensures SplitOn(JoinWith(parts, sep), sep) == parts
  {
    if |parts| > 1 {
      assert sep !in parts[0];
      SplitOnStep(parts[0], sep, JoinWith(parts[1..], sep));
      assert forall i :: 0 <= i < |parts[1..]| ==> parts[1..][i] == parts[i + 1];
      SplitOnJoin(parts[1..], sep);
      assert [parts[0]] + parts[1..] == parts;
    }
  }


  lemma ParsePairOfPair(name: string, value: string)
    ensures ParsePair(Pair(name, value)) == (name, value)
  {
    var p := Pair(name, value);
    EncodeHasNoDelimiters(name);
    assert p == Encode(name) + ['='] + Encode(value);
    FirstIndexOfJoin(Encode(name), '=', Encode(value));
    assert p[..|Encode(name)|] == Encode(name);
    assert p[|Encode(name)| + 1..] == Encode(value);
    DecodeOfEncode(name);
    DecodeOfEncode(value);
  }

  /** No serialized pair contains `&`. */
  lemma PairsHaveNoAmpersand(pairs: seq<(string, string)>)
    ensures forall i :: 0 <= i < |pairs| ==> '&' !in Pairs(pairs)[i]
  {
    forall i | 0 <= i < |pairs|
      ensures '&' !in Pairs(pairs)[i]
    {
      PairAt(pairs, i);
      EncodeHasNoDelimiters(pairs[i].0);
      EncodeHasNoDelimiters(pairs[i].1);
    }
  }

  lemma {:induction false} PairAt(pairs: seq<(string, string)>, i: nat)
    requires i < |pairs|
    ensures Pairs(pairs)[i] == Pair(pairs[i].0, pairs[i].1)
  {
    if i > 0 {
      PairAt(pairs[1..], i - 1);
    }
  }

  lemma {:induction false} ParsePartsOfPairs(pairs: seq<(string, string)>)
    ensures ParseParts(Pairs(pairs)) == pairs
  {
    if pairs != [] {
      ParsePartsOfPairs(pairs[1..]);
      ParsePairOfPair(pairs[0].0, pairs[0].1);
      var ps := Pairs(pairs);
      assert ps[1..] == Pairs(pairs[1..]);
      assert [pairs[0]] + pairs[1..] == pairs;
    }
  }

  /** Parsing a serialized query gives back the pairs, in order. */
  lemma ParseSerialize(pairs: seq<(string, string)>)
    ensures ParseQuery(Serialize(pairs)) == pairs
  {
    if pairs != [] {
      ParsePartsOfPairs(pairs);
      PairsHaveNoAmpersand(pairs);
      SplitOnJoin(Pairs(pairs), '&');
    }
  }
}
