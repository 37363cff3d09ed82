/** Percent-encoding as the two standards the core relies on define it: the
    application/x-www-form-urlencoded serializer and parser of section 5 of
    the WHATWG URL Standard (what `URLSearchParams.prototype.toString`
    produces), and `encodeURIComponent` of section 19.2.6 of ECMA-262.
    Both encode a code point by its UTF-8 bytes, each byte as `%` followed by
    two upper-case hexadecimal digits. */
module UrlEncoding {
  import opened Strings
  import Seqs

  type Byte = b: int | 0 <= b < 256

  /** The UTF-8 encoding of one code point. */
  function Utf8(c: char): (bs: seq<Byte>)
    ensures 1 <= |bs| <= 4
    ensures (c as int) < 0x80 ==> bs == [c as int]
    ensures (c as int) >= 0x80 ==> forall i :: 0 <= i < |bs| ==> bs[i] >= 0x80
  {
    var n := c as int;
    if n < 0x80 then [n]
    else if n < 0x800 then [0xC0 + n / 0x40, 0x80 + n % 0x40]
    else if n < 0x10000 then [0xE0 + n / 0x1000, 0x80 + (n / 0x40) % 0x40, 0x80 + n % 0x40]
    else [0xF0 + n / 0x40000, 0x80 + (n / 0x1000) % 0x40, 0x80 + (n / 0x40) % 0x40, 0x80 + n % 0x40]
  }

  function Utf8Encode(s: string): (bs: seq<Byte>)
    ensures |bs| >= |s|
  {
    if |s| == 0 then [] else Utf8(s[0]) + Utf8Encode(s[1..])
  }

  predicate IsAscii(s: string)
  {
    forall i :: 0 <= i < |s| ==> (s[i] as int) < 0x80
  }

  predicate IsAsciiAlphanumeric(c: char)
  {
    ('a' <= c <= 'z') || ('A' <= c <= 'Z') || ('0' <= c <= '9')
  }

  /** The code points the application/x-www-form-urlencoded percent-encode
      set leaves alone. */
  predicate IsFormUnreserved(c: char)
  {
    IsAsciiAlphanumeric(c) || c == '*' || c == '-' || c == '.' || c == '_'
  }

  /** The code points `encodeURIComponent` leaves alone. */
  predicate IsComponentUnreserved(c: char)
  {
    IsAsciiAlphanumeric(c) || c == '-' || c == '_' || c == '.' || c == '!' || c == '~'
    || c == '*' || c == '\'' || c == '(' || c == ')'
  }

  function HexDigit(d: nat): (c: char)
    requires d < 16
    ensures IsAsciiAlphanumeric(c) && IsHexDigit(c)
  {
    "0123456789ABCDEF"[d]
  }

  predicate IsHexDigit(c: char)
  {
    ('0' <= c <= '9') || ('A' <= c <= 'F') || ('a' <= c <= 'f')
  }

  function HexValue(c: char): (d: nat)
    requires IsHexDigit(c)
    ensures d < 16
  {
    if '0' <= c <= '9' then (c as int) - ('0' as int)
    else if 'A' <= c <= 'F' then (c as int) - ('A' as int) + 10
    else (c as int) - ('a' as int) + 10
  }

  lemma HexValueOfDigit(d: nat)
    requires d < 16
    ensures HexValue(HexDigit(d)) == d
  {
  }

  /** Each byte as `%XY`. */
  function PercentEncodeBytes(bs: seq<Byte>): (r: string)
    ensures |r| == 3 * |bs|
    ensures forall i :: 0 <= i < |r| ==> r[i] == '%' || IsAsciiAlphanumeric(r[i])
  {
    if |bs| == 0 then ""
    else ['%', HexDigit(bs[0] / 16), HexDigit(bs[0] % 16)] + PercentEncodeBytes(bs[1..])
  }

  function FormEncodeChar(c: char): string
  {
    if c == ' ' then "+"
    else if IsFormUnreserved(c) then [c]
    else PercentEncodeBytes(Utf8(c))
  }

  /** The percent-encoding of one name or value by the
      application/x-www-form-urlencoded serializer (space as `+`). */
  function FormEncode(s: string): (r: string)
    ensures forall i :: 0 <= i < |r| ==> IsFormUnreserved(r[i]) || r[i] == '+' || r[i] == '%'
  {
    if |s| == 0 then "" else FormEncodeChar(s[0]) + FormEncode(s[1..])
  }

  function SerializePair(p: (string, string)): string
  {
    FormEncode(p.0) + "=" + FormEncode(p.1)
  }

  /** `new URLSearchParams(pairs).toString()`: the pairs in order, each as
      `name=value`, separated by `&`. */
  function FormSerialize(pairs: seq<(string, string)>): string
  {
    Join(Seqs.Map(SerializePair, pairs), "&")
  }

  function ComponentEncodeChar(c: char): (r: string)
    ensures |r| >= 1
  {
    if IsComponentUnreserved(c) then [c] else PercentEncodeBytes(Utf8(c))
  }

  /** `encodeURIComponent(s)`. */
  function EncodeUriComponent(s: string): (r: string)
    ensures |r| >= |s|
    ensures forall i :: 0 <= i < |r| ==> IsComponentUnreserved(r[i]) || r[i] == '%'
  {
    if |s| == 0 then "" else ComponentEncodeChar(s[0]) + EncodeUriComponent(s[1..])
  }

  /** Percent-decoding: every `%` followed by two hexadecimal digits stands for
      that byte; every other code point stands for its UTF-8 bytes. */
  function PercentDecode(s: string): seq<Byte>
  {
    if |s| == 0 then []
    else if s[0] == '%' && |s| >= 3 && IsHexDigit(s[1]) && IsHexDigit(s[2]) then
      [16 * HexValue(s[1]) + HexValue(s[2])] + PercentDecode(s[3..])
    else Utf8(s[0]) + PercentDecode(s[1..])
  }

  function PlusAsSpace(c: char): char
  {
    if c == '+' then ' ' else c
  }

  /** Decoding of one name or value by the application/x-www-form-urlencoded
      parser: `+` is a space, then percent-decoding. */
  function FormDecode(s: string): seq<Byte>
  {
    PercentDecode(Seqs.Map(PlusAsSpace, s))
  }

  /** One `name=value` piece: the name ends at the first `=`; a piece without
      `=` is a name with an empty value. */
  function ParsePair(piece: string): (seq<Byte>, seq<Byte>)
  {
    var parts := Split(piece, '=');
    (FormDecode(parts[0]), FormDecode(Join(parts[1..], "=")))
  }

  function ParsePieces(pieces: seq<string>): seq<(seq<Byte>, seq<Byte>)>
  {
    if |pieces| == 0 then []
    else (if pieces[0] == "" then [] else [ParsePair(pieces[0])]) + ParsePieces(pieces[1..])
  }

  /** The application/x-www-form-urlencoded parser: split on `&`, skip empty
      pieces, decode each name and value to bytes. */
  function FormParse(query: string): seq<(seq<Byte>, seq<Byte>)>
  {
    ParsePieces(Split(query, '&'))
  }

  function Utf8Pair(p: (string, string)): (seq<Byte>, seq<Byte>)
  {
    (Utf8Encode(p.0), Utf8Encode(p.1))
  }

  // ----- Round trips -----

  lemma DecodeTriplet(b: Byte, rest: string)
    ensures PercentDecode(['%', HexDigit(b / 16), HexDigit(b % 16)] + rest) == [b] + PercentDecode(rest)
  {
    var s := ['%', HexDigit(b / 16), HexDigit(b % 16)] + rest;
    HexValueOfDigit(b / 16);
    HexValueOfDigit(b % 16);
    assert s[3..] == rest;
  }

  lemma {:induction false} DecodeEncodedBytes(bs: seq<Byte>, rest: string)
    ensures PercentDecode(PercentEncodeBytes(bs) + rest) == bs + PercentDecode(rest)
  {
    if |bs| == 0 {
      assert PercentEncodeBytes(bs) + rest == rest;
    } else {
      var b := bs[0];
      var triplet := ['%', HexDigit(b / 16), HexDigit(b % 16)];
      var encoded := PercentEncodeBytes(bs[1..]);
      assert PercentEncodeBytes(bs) == triplet + encoded;
      Seqs.AppendAssoc(triplet, encoded, rest);
      DecodeTriplet(b, encoded + rest);
      DecodeEncodedBytes(bs[1..], rest);
      Seqs.AppendAssoc([b], bs[1..], PercentDecode(rest));
      assert [b] + bs[1..] == bs;
    }
  }

  lemma DecodeAsciiChar(c: char, rest: string)
    requires (c as int) < 0x80 && c != '%'
    ensures PercentDecode([c] + rest) == [c as int] + PercentDecode(rest)
  {
    assert ([c] + rest)[1..] == rest;
  }

  /** Percent-decoding `encodeURIComponent(s)` gives the UTF-8 bytes of `s`. */
  lemma {:induction false} DecodeEncodeUriComponent(s: string)
    ensures PercentDecode(EncodeUriComponent(s)) == Utf8Encode(s)
  {
    if |s| > 0 {
      var c := s[0];
      var rest := EncodeUriComponent(s[1..]);
      DecodeEncodeUriComponent(s[1..]);
      if IsComponentUnreserved(c) {
        DecodeAsciiChar(c, rest);
      } else {
        DecodeEncodedBytes(Utf8(c), rest);
      }
    }
  }

  lemma {:induction false} PlusAsSpaceOfEncoding(bs: seq<Byte>)
    ensures Seqs.Map(PlusAsSpace, PercentEncodeBytes(bs)) == PercentEncodeBytes(bs)
  {
  }

  /** Form-decoding a form-encoded name or value gives its UTF-8 bytes. */
  lemma {:induction false} FormDecodeEncode(s: string)
    ensures FormDecode(FormEncode(s)) == Utf8Encode(s)
  {
    if |s| > 0 {
      var c := s[0];
      var head := FormEncodeChar(c);
      var tail := FormEncode(s[1..]);
      FormDecodeEncode(s[1..]);
      Seqs.MapAppend(PlusAsSpace, head, tail);
      var tail' := Seqs.Map(PlusAsSpace, tail);
      if c == ' ' {
        assert Seqs.Map(PlusAsSpace, head) == [' '];
        DecodeAsciiChar(' ', tail');
      } else if IsFormUnreserved(c) {
        assert Seqs.Map(PlusAsSpace, head) == [c];
        DecodeAsciiChar(c, tail');
      } else {
        PlusAsSpaceOfEncoding(Utf8(c));
        DecodeEncodedBytes(Utf8(c), tail');
      }
    }
  }

  lemma ParseSerializedPair(p: (string, string))
    ensures SerializePair(p) != ""
    ensures ParsePair(SerializePair(p)) == Utf8Pair(p)
  {
    var n, v := FormEncode(p.0), FormEncode(p.1);
    assert '=' !in n && '=' !in v;
    SplitAtSeparator(n, v, '=');
    SplitWithoutSeparator(v, '=');
    assert SerializePair(p) == n + ['='] + v;
    FormDecodeEncode(p.0);
    FormDecodeEncode(p.1);
  }

  lemma {:induction false} ParseSerializedPieces(pairs: seq<(string, string)>)
    ensures ParsePieces(Seqs.Map(SerializePair, pairs)) == Seqs.Map(Utf8Pair, pairs)
  {
    if |pairs| > 0 {
      var pieces := Seqs.Map(SerializePair, pairs);
      assert pieces[1..] == Seqs.Map(SerializePair, pairs[1..]);
      assert Seqs.Map(Utf8Pair, pairs)[1..] == Seqs.Map(Utf8Pair, pairs[1..]);
      ParseSerializedPair(pairs[0]);
      ParseSerializedPieces(pairs[1..]);
    }
  }

  /** Parsing a serialized query gives back every pair, in order, as UTF-8
      bytes. */
  lemma FormParseSerialize(pairs: seq<(string, string)>)
    ensures FormParse(FormSerialize(pairs)) == Seqs.Map(Utf8Pair, pairs)
  {
    var pieces := Seqs.Map(SerializePair, pairs);
    if |pairs| == 0 {
      assert Split("", '&') == [""];
    } else {
      forall i | 0 <= i < |pieces| ensures '&' !in pieces[i] {
        assert pieces[i] == FormEncode(pairs[i].0) + "=" + FormEncode(pairs[i].1);
      }
      SplitJoin(pieces, '&');
      ParseSerializedPieces(pairs);
    }
  }

  /** A string of unreserved code points is form-encoded as itself. */
  lemma {:induction false} FormEncodeUnreserved(s: string)
    requires forall i :: 0 <= i < |s| ==> IsFormUnreserved(s[i])
    ensures FormEncode(s) == s
  {
    if |s| > 0 {
      FormEncodeUnreserved(s[1..]);
      assert [s[0]] + s[1..] == s;
    }
  }

  lemma {:induction false} FormEncodeAppend(a: string, b: string)
    ensures FormEncode(a + b) == FormEncode(a) + FormEncode(b)
  {
    if |a| > 0 {
      var e := FormEncodeChar(a[0]);
      assert (a + b)[0] == a[0];
      assert (a + b)[1..] == a[1..] + b;
      assert FormEncode(a + b) == e + FormEncode(a[1..] + b);
      FormEncodeAppend(a[1..], b);
      Seqs.AppendAssoc(e, FormEncode(a[1..]), FormEncode(b));
    } else {
      assert a + b == b;
    }
  }

  lemma PipeFormEncoded()
    ensures FormEncode("|") == "%7C"
  {
    assert Utf8('|') == [124];
    assert "|"[1..] == "";
  }

  /** Form-encoding a `|`-joined list encodes each element and turns each
      pipe into `%7C`. */
  lemma {:induction false} FormEncodeJoinPipe(xs: seq<string>)
    ensures FormEncode(Join(xs, "|")) == Join(Seqs.Map(FormEncode, xs), "%7C")
  {
    if |xs| > 1 {
      var rest := Join(xs[1..], "|");
      assert Join(xs, "|") == xs[0] + "|" + rest;
      FormEncodeAppend(xs[0] + "|", rest);
      FormEncodeAppend(xs[0], "|");
      PipeFormEncoded();
      FormEncodeJoinPipe(xs[1..]);
      var m := Seqs.Map(FormEncode, xs);
      assert m[1..] == Seqs.Map(FormEncode, xs[1..]);
      assert Join(m, "%7C") == m[0] + "%7C" + Join(m[1..], "%7C");
    }
  }

  /** Form-encoded text is ASCII. */
  lemma FormEncodeIsAscii(s: string)
    ensures IsAscii(FormEncode(s))
  {
  }

  lemma {:induction false} JoinIsAscii(xs: seq<string>, sep: string)
    requires IsAscii(sep)
    requires forall i :: 0 <= i < |xs| ==> IsAscii(xs[i])
    ensures IsAscii(Join(xs, sep))
  {
    if |xs| > 1 {
      JoinIsAscii(xs[1..], sep);
    }
  }

  /** A serialized query is ASCII. */
  lemma FormSerializeIsAscii(pairs: seq<(string, string)>)
    ensures IsAscii(FormSerialize(pairs))
  {
    var parts := Seqs.Map(SerializePair, pairs);
    forall k | 0 <= k < |parts| ensures IsAscii(parts[k]) {
      FormEncodeIsAscii(pairs[k].0);
      FormEncodeIsAscii(pairs[k].1);
    }
    JoinIsAscii(parts, "&");
  }

  /** `encodeURIComponent` leaves none of the URL delimiters `|`, `&`, `=`,
      `?` and `/` in its output. */
  lemma EncodeUriComponentHasNoDelimiters(s: string)
    ensures var e := EncodeUriComponent(s);
      '|' !in e && '&' !in e && '=' !in e && '?' !in e && '/' !in e
  {
    var e := EncodeUriComponent(s);
    forall i | 0 <= i < |e|
      ensures e[i] != '|' && e[i] != '&' && e[i] != '=' && e[i] != '?' && e[i] != '/'
    {
      assert IsComponentUnreserved(e[i]) || e[i] == '%';
    }
  }
}
