/** The backslash-escape decoder that the renderer applies to each operand
    when "-e" is given (src/main.rs:103-126): one character of look-ahead
    after a backslash, a fixed table, and no multi-character forms. */
module Escapes {

  const Backslash: char := '\\'

  /** The letters the table knows after a backslash. */
  const EscapeLetters: string := "\\abcefnrtv"

  /** The character an escape `\e` stands for. */
  function EscapeChar(e: char): (r: char)
    ensures r == Backslash <==> e == Backslash
    ensures r == 0 as char <==> e !in EscapeLetters
    ensures r == Backslash || (r as int) < 0x20
  {
    match e
    case '\\' => '\\'
    case 'a' => 0x07 as char
    case 'b' => 0x08 as char
    case 'c' => 0x04 as char
    case 'e' => 0x1B as char
    case 'f' => 0x0C as char
    case 'n' => 0x0A as char
    case 'r' => 0x0D as char
    case 't' => 0x09 as char
    case 'v' => 0x0B as char
    case _ => 0 as char
  }

  /** The decoded form of one operand. A backslash and the character after it
      become one character; a backslash with no character after it becomes the
      digit '0'. */
  function Decode(s: string): (r: string)
    ensures |r| <= |s|
    ensures |s| <= 2 * |r|
    decreases |s|
  {
    if s == [] then []
    else if s[0] != Backslash then [s[0]] + Decode(s[1..])
    else if |s| == 1 then "0"
    else [EscapeChar(s[1])] + Decode(s[2..])
  }

  /** Characters before the first backslash are copied unchanged. */
  lemma {:induction false} DecodePlainPrefix(p: string, t: string)
    requires Backslash !in p
    ensures Decode(p + t) == p + Decode(t)
    decreases |p|
  {
    if p != [] {
      assert p[0] in p;
      assert (p + t)[0] == p[0] && (p + t)[1..] == p[1..] + t;
      DecodePlainPrefix(p[1..], t);
      calc {
        Decode(p + t);
        [p[0]] + Decode(p[1..] + t);
        [p[0]] + (p[1..] + Decode(t));
        { assert p == [p[0]] + p[1..]; }
        p + Decode(t);
      }
    } else {
      assert p + t == t;
    }
  }

  /** A string with no backslash decodes to itself. */
  lemma DecodeNoBackslash(s: string)
    requires Backslash !in s
    ensures Decode(s) == s
  {
    DecodePlainPrefix(s, []);
    assert s + [] == s;
  }

  /** A backslash that ends the operand without completing an escape turns
      into the digit '0'. */
  lemma DecodeTrailingBackslash(p: string)
    requires Backslash !in p
    ensures Decode(p + [Backslash]) == p + "0"
  {
    DecodePlainPrefix(p, [Backslash]);
  }

  /** A backslash and the character after it are replaced by one character,
      and decoding goes on after them. */
  lemma DecodeEscape(e: char, t: string)
    ensures Decode([Backslash, e] + t) == [EscapeChar(e)] + Decode(t)
  {
    assert ([Backslash, e] + t)[2..] == t;
  }

  /** One step of decoding from position `j`, as the transducer takes it. */
  lemma DecodeFrom(s: string, j: nat)
    requires j < |s|
    ensures s[j] != Backslash ==> Decode(s[j..]) == [s[j]] + Decode(s[j + 1..])
    ensures s[j] == Backslash && j + 1 == |s| ==> Decode(s[j..]) == "0"
    ensures s[j] == Backslash && j + 1 < |s| ==>
      Decode(s[j..]) == [EscapeChar(s[j + 1])] + Decode(s[j + 2..])
  {
    var rest := s[j..];
    assert rest[0] == s[j];
    if s[j] != Backslash {
      assert rest[1..] == s[j + 1..];
    } else if j + 1 < |s| {
      DecodeEscape(s[j + 1], s[j + 2..]);
      assert rest == [Backslash, s[j + 1]] + s[j + 2..];
    } else {
      assert rest == [Backslash];
    }
  }

  /** The octal and hexadecimal forms are not decoded: "\0" and "\x" each
      become one NUL, and the digits after them are copied. */
  lemma NumericEscapesNotDecoded(digits: string)
    requires Backslash !in digits
    ensures Decode("\\0" + digits) == [0 as char] + digits
    ensures Decode("\\x" + digits) == [0 as char] + digits
  {
    DecodeNoBackslash(digits);
    DecodeEscape('0', digits);
    DecodeEscape('x', digits);
  }

  /** One character written so that Decode gives it back. */
  function QuoteChar(c: char): (r: string)
    ensures |r| == 1 ==> r == [c] && c != Backslash
    ensures |r| == 2 ==> r[0] == Backslash && EscapeChar(r[1]) == c
    ensures 1 <= |r| <= 2
  {
    if c == Backslash then "\\\\"
    else if c == 0x07 as char then "\\a"
    else if c == 0x08 as char then "\\b"
    else if c == 0x04 as char then "\\c"
    else if c == 0x1B as char then "\\e"
    else if c == 0x0C as char then "\\f"
    else if c == 0x0A as char then "\\n"
    else if c == 0x0D as char then "\\r"
    else if c == 0x09 as char then "\\t"
    else if c == 0x0B as char then "\\v"
    else if c == 0 as char then "\\0"
    else [c]
  }

  /** The inverse of Decode: a string of escapes that decodes to `s`. */
  function Quote(s: string): (r: string)
    ensures |s| <= |r| <= 2 * |s|
  {
    if s == [] then [] else QuoteChar(s[0]) + Quote(s[1..])
  }

  lemma QuoteCharDecodes(c: char, t: string)
    ensures Decode(QuoteChar(c) + t) == [c] + Decode(t)
  {
    var q := QuoteChar(c);
    if |q| == 2 {
      assert q == [Backslash, q[1]];
      DecodeEscape(q[1], t);
    } else {
      assert (q + t)[0] == c && (q + t)[1..] == t;
    }
  }

  /** Every string is the decoding of its quoted form. */
  lemma {:induction false} DecodeQuote(s: string)
    ensures Decode(Quote(s)) == s
  {
    if s != [] {
      QuoteCharDecodes(s[0], Quote(s[1..]));
      DecodeQuote(s[1..]);
    }
  }
}
