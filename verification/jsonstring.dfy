/** JSON string literals (section 7 of RFC 8259). src/rule.c calls
    vsjson_encode_string / vsjson_decode_string, whose code is not part of this
    model; all the rule codec relies on is that encoding is injective and that
    decoding undoes it. This module gives one concrete escaper with exactly
    that property: a quote or backslash is preceded by a backslash, every other
    character stands for itself, and the whole is put between quotes. A token
    that is not a quoted string (such as `null`) decodes to nothing. */
module JsonString {
  import opened Strings

  function Escape(s: string): string
  {
    if |s| == 0 then []
    else (if s[0] == '"' || s[0] == '\\' then ['\\', s[0]] else [s[0]]) + Escape(s[1..])
  }

  /** Inverse of Escape; fails on a bare quote or a dangling backslash. */
  function Unescape(b: string): Option<string>
  {
    if |b| == 0 then Some([])
    else if b[0] == '\\' then
      if |b| >= 2 && (b[1] == '"' || b[1] == '\\') then
        match Unescape(b[2..])
        case None => None
        case Some(rest) => Some([b[1]] + rest)
      else None
    else if b[0] == '"' then None
    else
      match Unescape(b[1..])
      case None => None
      case Some(rest) => Some([b[0]] + rest)
  }

  /** vsjson_encode_string: a quoted JSON string literal. */
  function Encode(s: string): (r: string)
    ensures |r| >= 2 && r[0] == '"' && r[|r| - 1] == '"'
  {
    "\"" + Escape(s) + "\""
  }

  /** The encoding of a string pointer that may be NULL; NULL is written `null`. */
  function EncodeNullable(o: Option<string>): string
  {
    match o
    case Some(s) => Encode(s)
    case None => "null"
  }

  /** vsjson_decode_string: the string a token stands for, None when it is not a string literal. */
  function Decode(raw: string): Option<string>
  {
    if |raw| >= 2 && raw[0] == '"' && raw[|raw| - 1] == '"' then Unescape(raw[1..|raw| - 1])
    else None
  }

  lemma {:induction false} UnescapeEscape(s: string)
    ensures Unescape(Escape(s)) == Some(s)
  {
    if |s| > 0 {
      UnescapeEscape(s[1..]);
      var e := Escape(s);
      if s[0] == '"' || s[0] == '\\' {
        assert e == ['\\', s[0]] + Escape(s[1..]);
        assert e[2..] == Escape(s[1..]);
      } else {
        assert e == [s[0]] + Escape(s[1..]);
        assert e[1..] == Escape(s[1..]);
      }
      assert [s[0]] + s[1..] == s;
    }
  }

  /** Decoding undoes encoding. */
  lemma DecodeEncode(s: string)
    ensures Decode(Encode(s)) == Some(s)
  {
    var r := Encode(s);
    assert r[1..|r| - 1] == Escape(s);
    UnescapeEscape(s);
  }

  /** Decoding undoes the nullable encoding, NULL included. */
  lemma DecodeEncodeNullable(o: Option<string>)
    ensures Decode(EncodeNullable(o)) == o
  {
    if o.Some? {
      DecodeEncode(o.value);
    }
  }

  /** Encoding is injective: distinct strings never share a literal. */
  lemma EncodeInjective(s: string, t: string)
    requires Encode(s) == Encode(t)
    ensures s == t
  {
    DecodeEncode(s);
    DecodeEncode(t);
  }
}
