/** UTF-8 (section 3 of RFC 3629) and the truncation that bounds packet strings. */
module Utf8 {
  import opened Basics

  type Byte = n: int | 0 <= n < 256

  function EncodeChar(c: char): (r: seq<Byte>)
    ensures 1 <= |r| <= 4
  {
    var n := c as int;
    if n < 0x80 then [n]
    else if n < 0x800 then [0xC0 + n / 64, 0x80 + n % 64]
    else if n < 0x10000 then [0xE0 + n / 4096, 0x80 + n / 64 % 64, 0x80 + n % 64]
    else [0xF0 + n / 262144, 0x80 + n / 4096 % 64, 0x80 + n / 64 % 64, 0x80 + n % 64]
  }

  function Encode(s: string): seq<Byte>
  {
    if s == "" then [] else EncodeChar(s[0]) + Encode(s[1..])
  }

  function Size(s: string): nat { |Encode(s)| }

  predicate Tail(b: Byte) { 0x80 <= b < 0xC0 }

  datatype Decoded = Decoded(c: char, length: nat)

  /** The well-formed sequence at the front, if there is one: shortest forms only, no surrogates. */
  function DecodeFirst(b: seq<Byte>): (r: Option<Decoded>)
    requires b != []
    ensures r.Some? ==> 1 <= r.value.length <= |b|
  {
    var lead: int := b[0];
    var t1: int := if |b| >= 2 && Tail(b[1]) then b[1] - 0x80 else -1;
    var t2: int := if |b| >= 3 && Tail(b[2]) then b[2] - 0x80 else -1;
    var t3: int := if |b| >= 4 && Tail(b[3]) then b[3] - 0x80 else -1;
    if lead < 0x80 then Some(Decoded(lead as char, 1))
    else if 0xC2 <= lead < 0xE0 && t1 >= 0 then
      Some(Decoded(((lead - 0xC0) * 64 + t1) as char, 2))
    else if 0xE0 <= lead < 0xF0 && t1 >= 0 && t2 >= 0 && (lead == 0xE0 ==> t1 >= 0x20) &&
      (lead == 0xED ==> t1 < 0x20) then
      Some(Decoded(((lead - 0xE0) * 4096 + t1 * 64 + t2) as char, 3))
    else if 0xF0 <= lead < 0xF5 && t1 >= 0 && t2 >= 0 && t3 >= 0 && (lead == 0xF0 ==> t1 >= 0x10) &&
      (lead == 0xF4 ==> t1 < 0x10) then
      Some(Decoded(((lead - 0xF0) * 262144 + t1 * 4096 + t2 * 64 + t3) as char, 4))
    else None
  }

  /** Decoding with errors ignored: a byte that starts no well-formed sequence is skipped. */
  function DecodeIgnoring(b: seq<Byte>): string
  {
    if b == [] then ""
    else match DecodeFirst(b)
      case Some(d) => [d.c] + DecodeIgnoring(b[d.length..])
      case None => DecodeIgnoring(b[1..])
  }

  lemma DecodeShortChar(c: char, rest: seq<Byte>)
    requires c as int < 0x800
    ensures DecodeFirst(EncodeChar(c) + rest) == Some(Decoded(c, |EncodeChar(c)|))
  {
  }

  lemma DecodeThreeBytes(c: char, rest: seq<Byte>)
    requires 0x800 <= c as int < 0x10000
    ensures DecodeFirst(EncodeChar(c) + rest) == Some(Decoded(c, 3))
  {
    var n := c as int;
    var b := EncodeChar(c) + rest;
    assert b[0] == 0xE0 + n / 4096 && b[1] == 0x80 + n / 64 % 64 && b[2] == 0x80 + n % 64;
    assert n == n / 4096 * 4096 + n / 64 % 64 * 64 + n % 64;
  }

  lemma DecodeFourBytes(c: char, rest: seq<Byte>)
    requires 0x10000 <= c as int
    ensures DecodeFirst(EncodeChar(c) + rest) == Some(Decoded(c, 4))
  {
    var n := c as int;
    var b := EncodeChar(c) + rest;
    assert b[0] == 0xF0 + n / 262144 && b[1] == 0x80 + n / 4096 % 64 && b[2] == 0x80 + n / 64 % 64 &&
      b[3] == 0x80 + n % 64;
    assert n == n / 262144 * 262144 + n / 4096 % 64 * 4096 + n / 64 % 64 * 64 + n % 64;
  }

  lemma DecodeEncodedChar(c: char, rest: seq<Byte>)
    ensures DecodeFirst(EncodeChar(c) + rest) == Some(Decoded(c, |EncodeChar(c)|))
  {
    if c as int < 0x800 {
      DecodeShortChar(c, rest);
    } else if c as int < 0x10000 {
      DecodeThreeBytes(c, rest);
    } else {
      DecodeFourBytes(c, rest);
    }
  }

  /** One character of each length: U+0024, U+00A2, U+20AC and U+10348. */
  lemma EncodedExamples()
    ensures EncodeChar('$') == [0x24]
    ensures EncodeChar('\U{A2}') == [0xC2, 0xA2]
    ensures EncodeChar('\U{20AC}') == [0xE2, 0x82, 0xAC]
    ensures EncodeChar('\U{10348}') == [0xF0, 0x90, 0x8D, 0x88]
    ensures Encode(ELLIPSIS) == [0xE2, 0x80, 0xA6]
  {
    assert ELLIPSIS[1..] == "";
  }

  /** A cut through the middle of one character leaves bytes that decode to nothing. */
  lemma CutCharDecodesToNothing(c: char, k: nat)
    requires k < |EncodeChar(c)|
    ensures DecodeIgnoring(EncodeChar(c)[..k]) == ""
  {
    var p := EncodeChar(c)[..k];
    if k >= 1 {
      assert DecodeFirst(p).None?;
      TailsDecodeToNothing(p[1..]);
    }
  }

  lemma {:induction false} TailsDecodeToNothing(b: seq<Byte>)
    requires forall i :: 0 <= i < |b| ==> Tail(b[i])
    ensures DecodeIgnoring(b) == ""
  {
    if b != [] { TailsDecodeToNothing(b[1..]); }
  }

  lemma {:induction false} DecodeEncoded(s: string)
    ensures DecodeIgnoring(Encode(s)) == s
  {
    if s != "" {
      DecodeEncodedChar(s[0], Encode(s[1..]));
      assert Encode(s)[|EncodeChar(s[0])|..] == Encode(s[1..]);
      DecodeEncoded(s[1..]);
    }
  }

  lemma {:induction false} SizeOfConcat(a: string, b: string)
    ensures Size(a + b) == Size(a) + Size(b)
  {
    if a == "" {
      assert a + b == b;
    } else {
      assert (a + b)[1..] == a[1..] + b;
      SizeOfConcat(a[1..], b);
    }
  }

  // ---------------------------------------------------------------- the longest fitting prefix

  /** Whole characters of `s` that fit into `room` bytes. */
  function Fitting(s: string, room: nat): string
  {
    if s == "" || |EncodeChar(s[0])| > room then ""
    else [s[0]] + Fitting(s[1..], room - |EncodeChar(s[0])|)
  }

  /** Fitting is the longest prefix within the room: longer prefixes are too big. */
  lemma {:induction false} FittingIsLongest(s: string, room: nat, k: nat)
    requires k <= |s|
    ensures Fitting(s, room) <= s && Size(Fitting(s, room)) <= room
    ensures Size(s[..k]) <= room <==> k <= |Fitting(s, room)|
  {
    if s != "" {
      var c := |EncodeChar(s[0])|;
      if k > 0 {
        assert s[..k] == [s[0]] + s[1..][..k - 1];
        SizeOfConcat([s[0]], s[1..][..k - 1]);
        assert Encode([s[0]]) == EncodeChar(s[0]) + Encode("");
      }
      if c <= room {
        FittingIsLongest(s[1..], room - c, if k > 0 then k - 1 else 0);
        assert Fitting(s, room)[1..] == Fitting(s[1..], room - c);
      }
    }
  }

  /** Cutting the bytes anywhere and ignoring errors keeps exactly the characters that fit. */
  lemma {:induction false} CutDecodesToFitting(s: string, room: nat)
    requires room <= Size(s)
    ensures DecodeIgnoring(Encode(s)[..room]) == Fitting(s, room)
  {
    if s != "" {
      var head, rest := EncodeChar(s[0]), Encode(s[1..]);
      if |head| > room {
        assert Encode(s)[..room] == head[..room];
        CutCharDecodesToNothing(s[0], room);
      } else {
        assert Encode(s)[..room] == head + rest[..room - |head|];
        DecodeEncodedChar(s[0], rest[..room - |head|]);
        assert (head + rest[..room - |head|])[|head|..] == rest[..room - |head|];
        CutDecodesToFitting(s[1..], room - |head|);
      }
    }
  }

  // ---------------------------------------------------------------- truncation

  const ELLIPSIS: string := "\U{2026}"

  function Truncate(s: string, limit: int): string
  {
    var raw := Encode(s);
    if |raw| <= limit then s
    else DecodeIgnoring(raw[..Min(Max(0, limit - |Encode(ELLIPSIS)|), |raw|)]) + ELLIPSIS
  }

  lemma EllipsisSize()
    ensures Size(ELLIPSIS) == 3
  {
    assert ELLIPSIS == ['\U{2026}'];
    assert ELLIPSIS[1..] == "";
  }

  /** A cut string is the longest fitting code-point prefix plus the ellipsis, in at most max(limit, 3) bytes. */
  lemma TruncateShape(s: string, limit: int)
    ensures Size(s) <= limit ==> Truncate(s, limit) == s
    ensures Size(s) > limit ==> Truncate(s, limit) == Fitting(s, Max(0, limit - 3)) + ELLIPSIS
    ensures Size(Truncate(s, limit)) <= Max(limit, 3)
    ensures DecodeIgnoring(Encode(Truncate(s, limit))) == Truncate(s, limit)
  {
    EllipsisSize();
    DecodeEncoded(Truncate(s, limit));
    if Size(s) > limit {
      var room := Min(Max(0, limit - 3), Size(s));
      CutDecodesToFitting(s, room);
      FittingIsLongest(s, room, 0);
      SizeOfConcat(Fitting(s, room), ELLIPSIS);
      assert room == Max(0, limit - 3);
    }
  }

  /** The strings truncation leaves alone. */
  predicate Short(s: string, limit: int)
  {
    Size(s) <= limit || (limit < 3 && s == ELLIPSIS)
  }

  lemma TruncateFixedPoints(s: string, limit: int)
    ensures Short(Truncate(s, limit), limit)
    ensures Short(s, limit) <==> Truncate(s, limit) == s
  {
    TruncateShape(s, limit);
    EllipsisSize();
    if Size(s) > limit {
      var room := Max(0, limit - 3);
      FittingIsLongest(s, room, 0);
      SizeOfConcat(Fitting(s, room), ELLIPSIS);
      if limit < 3 {
        assert Fitting(s, 0) == "";
        assert "" + ELLIPSIS == ELLIPSIS;
      }
    }
  }
}
