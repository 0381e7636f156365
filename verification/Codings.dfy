/** How links carry text: UTF-8, percent-encoding (section 2.1 of RFC 3986) and form encoding (section 5 of the WHATWG URL Standard). */
module Codings {

  datatype Option<+T> = None | Some(value: T)

  type Byte = b: int | 0 <= b < 256

  // ---- UTF-8 ----

  function EncodeChar(c: char): (r: seq<Byte>)
    ensures 1 <= |r| <= 4
    ensures |r| == 1 <==> c as int < 0x80
    ensures |r| > 1 ==> forall b <- r :: b >= 0x80
  {
    var n := c as int;
    if n < 0x80 then [n]
    else if n < 0x800 then [0xC0 + n / 64, 0x80 + n % 64]
    else if n < 0x10000 then [0xE0 + n / 64 / 64, 0x80 + n / 64 % 64, 0x80 + n % 64]
    else [0xF0 + n / 64 / 64 / 64, 0x80 + n / 64 / 64 % 64, 0x80 + n / 64 % 64, 0x80 + n % 64]
  }

  function Utf8(s: string): seq<Byte> {
    if s == "" then [] else EncodeChar(s[0]) + Utf8(s[1..])
  }

  /** The first character of a byte sequence, or how many bytes are given up on when it starts with none. */
  datatype First = Char(c: char, size: nat) | Bad(size: nat)

  predicate Trails(b: Byte) {
    0x80 <= b < 0xC0
  }

  /** Whether a byte may come second after a lead byte: no overlong form, no surrogate, nothing past the last code point. */
  predicate Second(lead: Byte, b: Byte) {
    && Trails(b)
    && (lead == 0xE0 ==> b >= 0xA0)
    && (lead == 0xED ==> b < 0xA0)
    && (lead == 0xF0 ==> b >= 0x90)
    && (lead == 0xF4 ==> b < 0x90)
  }

  /** Six more bits, from a trailing byte. */
  function Shift(bits: int, b: Byte): int {
    bits * 64 + b - 0x80
  }

  function FirstChar(bytes: seq<Byte>): (r: First)
    requires bytes != []
    ensures 1 <= r.size <= |bytes|
  {
    var lead: int := bytes[0];
    if lead < 0x80 then Char(lead as char, 1)
    else if lead < 0xC2 || lead > 0xF4 || |bytes| < 2 || !Second(lead, bytes[1]) then Bad(1)
    else if lead < 0xE0 then Char(Shift(lead - 0xC0, bytes[1]) as char, 2)
    else if |bytes| < 3 || !Trails(bytes[2]) then Bad(2)
    else if lead < 0xF0 then Char(Shift(Shift(lead - 0xE0, bytes[1]), bytes[2]) as char, 3)
    else if |bytes| < 4 || !Trails(bytes[3]) then Bad(3)
    else Char(Shift(Shift(Shift(lead - 0xF0, bytes[1]), bytes[2]), bytes[3]) as char, 4)
  }

  /** Decoding that fails on the first byte that is no UTF-8. */
  function Strictly(bytes: seq<Byte>): Option<string> {
    if bytes == [] then Some("")
    else
      var first := FirstChar(bytes);
      var rest := Strictly(bytes[first.size..]);
      if first.Bad? || rest.None? then None else Some([first.c] + rest.value)
  }

  const REPLACEMENT := '\U{FFFD}'

  /** Decoding that puts the replacement character for what is no UTF-8. */
  function Leniently(bytes: seq<Byte>): string {
    if bytes == [] then ""
    else
      var first := FirstChar(bytes);
      [if first.Bad? then REPLACEMENT else first.c] + Leniently(bytes[first.size..])
  }

  lemma FirstOfEncoded(c: char, rest: seq<Byte>)
    ensures FirstChar(EncodeChar(c) + rest) == Char(c, |EncodeChar(c)|)
  {
    var n := c as int;
    var e := EncodeChar(c);
    var bytes := e + rest;
    assert bytes[0] == e[0];
    if n < 0x80 {
    } else if n < 0x800 {
      assert bytes[1] == e[1];
      assert Shift(e[0] - 0xC0, e[1]) == n;
    } else if n < 0x10000 {
      assert bytes[1] == e[1] && bytes[2] == e[2];
      assert Shift(Shift(e[0] - 0xE0, e[1]), e[2]) == n;
    } else {
      assert bytes[1] == e[1] && bytes[2] == e[2] && bytes[3] == e[3];
      assert Shift(Shift(Shift(e[0] - 0xF0, e[1]), e[2]), e[3]) == n;
    }
  }

  lemma EncodedFirst(bytes: seq<Byte>)
    requires bytes != [] && FirstChar(bytes).Char?
    ensures bytes == EncodeChar(FirstChar(bytes).c) + bytes[FirstChar(bytes).size..]
  {
    var first := FirstChar(bytes);
    var n := first.c as int;
    if first.size == 2 {
      assert n / 64 == bytes[0] - 0xC0;
    } else if first.size == 3 {
      assert n / 64 == Shift(bytes[0] - 0xE0, bytes[1]);
      assert n / 64 / 64 == bytes[0] - 0xE0;
    } else if first.size == 4 {
      assert n / 64 == Shift(Shift(bytes[0] - 0xF0, bytes[1]), bytes[2]);
      assert n / 64 / 64 == Shift(bytes[0] - 0xF0, bytes[1]);
      assert n / 64 / 64 / 64 == bytes[0] - 0xF0;
    }
    assert EncodeChar(first.c) == bytes[..first.size];
  }

  /** Every text comes back from its bytes, by either decoder. */
  lemma {:induction false} DecodesUtf8(s: string)
    ensures Strictly(Utf8(s)) == Some(s) && Leniently(Utf8(s)) == s
  {
    if s != "" {
      FirstOfEncoded(s[0], Utf8(s[1..]));
      assert Utf8(s)[|EncodeChar(s[0])|..] == Utf8(s[1..]);
      DecodesUtf8(s[1..]);
      assert [s[0]] + s[1..] == s;
    }
  }

  /** The strict decoder accepts exactly the bytes of texts. */
  lemma {:induction false} StrictlyUtf8(bytes: seq<Byte>)
    ensures Strictly(bytes).Some? ==> bytes == Utf8(Strictly(bytes).value)
    decreases |bytes|
  {
    if bytes != [] && Strictly(bytes).Some? {
      var first := FirstChar(bytes);
      StrictlyUtf8(bytes[first.size..]);
      EncodedFirst(bytes);
      assert Strictly(bytes).value[1..] == Strictly(bytes[first.size..]).value;
    }
  }

  // ---- Percent-encoding ----

  const DIGITS := "0123456789ABCDEF"

  function Digit(n: nat): char
    requires n < 16
  {
    DIGITS[n]
  }

  /** The value of a hexadecimal digit in either case. */
  function DigitValue(c: char): (r: Option<nat>)
    ensures r.Some? ==> r.value < 16
  {
    if '0' <= c <= '9' then Some((c as int) - ('0' as int))
    else if 'A' <= c <= 'F' then Some((c as int) - ('A' as int) + 10)
    else if 'a' <= c <= 'f' then Some((c as int) - ('a' as int) + 10)
    else None
  }

  function Percent(b: Byte): (r: string)
    ensures |r| == 3 && r[0] == '%'
  {
    ['%', Digit(b / 16), Digit(b % 16)]
  }

  function PercentAll(bytes: seq<Byte>): string {
    if bytes == [] then "" else Percent(bytes[0]) + PercentAll(bytes[1..])
  }

  predicate Alphanumeric(c: char) {
    'a' <= c <= 'z' || 'A' <= c <= 'Z' || '0' <= c <= '9'
  }

  predicate Unreserved(c: char) {
    Alphanumeric(c) || c in "-_.!~*'()"
  }

  /** `encodeURIComponent` of a well-formed text. */
  function EncodeComponent(s: string): string {
    if s == "" then ""
    else (if Unreserved(s[0]) then [s[0]] else PercentAll(EncodeChar(s[0]))) + EncodeComponent(s[1..])
  }

  /** The byte that a text starts with when it starts with a percent sign and two digits. */
  function Escape(s: string): Option<Byte> {
    if |s| < 3 || s[0] != '%' || DigitValue(s[1]).None? || DigitValue(s[2]).None? then None
    else Some(DigitValue(s[1]).value * 16 + DigitValue(s[2]).value)
  }

  /** The bytes of a component, unless a percent sign starts no escape. */
  function ComponentBytes(s: string): Option<seq<Byte>> {
    if s == "" then Some([])
    else if s[0] == '%' then
      if Escape(s).None? then None
      else
        var rest := ComponentBytes(s[3..]);
        if rest.None? then None else Some([Escape(s).value] + rest.value)
    else
      var rest := ComponentBytes(s[1..]);
      if rest.None? then None else Some(EncodeChar(s[0]) + rest.value)
  }

  /** `decodeURIComponent`: no text when an escape is malformed or the bytes are no UTF-8. */
  function DecodeComponent(s: string): Option<string> {
    var bytes := ComponentBytes(s);
    if bytes.None? then None else Strictly(bytes.value)
  }

  lemma PercentIsRead(b: Byte, rest: string)
    ensures Escape(Percent(b) + rest) == Some(b) && (Percent(b) + rest)[3..] == rest
  {
    assert (Percent(b) + rest)[..3] == Percent(b);
    forall n: nat | n < 16 ensures DigitValue(Digit(n)) == Some(n) {
      DigitIsRead(n);
    }
  }

  /** Both readers turn an escape back into its byte. */
  lemma EscapeIsRead(b: Byte, rest: string)
    ensures FormRead(Percent(b) + rest) == [b] + FormRead(rest)
    ensures ComponentBytes(Percent(b) + rest)
         == if ComponentBytes(rest).None? then None else Some([b] + ComponentBytes(rest).value)
  {
    hide Percent, Escape, EncodeChar;
    PercentIsRead(b, rest);
    assert (Percent(b) + rest)[0] == '%';
  }

  lemma DigitIsRead(n: nat)
    requires n < 16
    ensures DigitValue(Digit(n)) == Some(n)
  {
  }

  lemma {:induction false} EscapesAreRead(bytes: seq<Byte>, rest: string)
    ensures ComponentBytes(PercentAll(bytes) + rest)
         == if ComponentBytes(rest).None? then None else Some(bytes + ComponentBytes(rest).value)
    decreases |bytes|
  {
    hide Percent, FormRead, ComponentBytes;
    if bytes == [] {
      assert PercentAll(bytes) + rest == rest;
      assert ComponentBytes(rest).Some? ==> bytes + ComponentBytes(rest).value == ComponentBytes(rest).value;
    } else {
      var tail := PercentAll(bytes[1..]) + rest;
      assert PercentAll(bytes) + rest == Percent(bytes[0]) + tail;
      EscapeIsRead(bytes[0], tail);
      EscapesAreRead(bytes[1..], rest);
      if ComponentBytes(rest).Some? {
        assert [bytes[0]] + (bytes[1..] + ComponentBytes(rest).value) == bytes + ComponentBytes(rest).value;
      }
    }
  }

  lemma {:induction false} ComponentIsRead(s: string)
    ensures ComponentBytes(EncodeComponent(s)) == Some(Utf8(s))
  {
    if s != "" {
      var rest := EncodeComponent(s[1..]);
      ComponentIsRead(s[1..]);
      if Unreserved(s[0]) {
        assert EncodeComponent(s)[1..] == rest;
      } else {
        EscapesAreRead(EncodeChar(s[0]), rest);
      }
    }
  }

  /** Decoding a component undoes encoding it, for every text. */
  lemma ComponentRoundTrip(s: string)
    ensures DecodeComponent(EncodeComponent(s)) == Some(s)
  {
    ComponentIsRead(s);
    DecodesUtf8(s);
  }

  /** What an encoded component is made of. */
  predicate ComponentChar(c: char) {
    Unreserved(c) || c == '%'
  }

  lemma {:induction false} PercentAllChars(bytes: seq<Byte>)
    ensures forall c <- PercentAll(bytes) :: ComponentChar(c)
  {
    if bytes != [] {
      PercentAllChars(bytes[1..]);
      assert forall n: nat :: n < 16 ==> Alphanumeric(Digit(n));
    }
  }

  lemma {:induction false} ComponentChars(s: string)
    ensures forall c <- EncodeComponent(s) :: ComponentChar(c)
  {
    if s != "" {
      ComponentChars(s[1..]);
      PercentAllChars(EncodeChar(s[0]));
    }
  }

  // ---- Form encoding ----

  predicate FormPlain(c: char) {
    Alphanumeric(c) || c in "*-._"
  }

  function FormByte(b: Byte): string {
    if b == 0x20 then "+" else if b < 0x80 && FormPlain(b as char) then [b as char] else Percent(b)
  }

  function FormBytes(bytes: seq<Byte>): string {
    if bytes == [] then "" else FormByte(bytes[0]) + FormBytes(bytes[1..])
  }

  /** A name or a value as `URLSearchParams` writes it. */
  function FormEncode(s: string): string {
    FormBytes(Utf8(s))
  }

  /** The bytes of a name or a value in a query: a plus is a space, and a percent sign that starts no escape is itself. */
  function FormRead(s: string): seq<Byte> {
    if s == "" then []
    else if Escape(s).Some? then [Escape(s).value] + FormRead(s[3..])
    else (if s[0] == '+' then [0x20] else EncodeChar(s[0])) + FormRead(s[1..])
  }

  function FormDecode(s: string): string {
    Leniently(FormRead(s))
  }

  lemma FormByteIsRead(b: Byte, rest: string)
    ensures FormRead(FormByte(b) + rest) == [b] + FormRead(rest)
  {
    hide Percent;
    var all := FormByte(b) + rest;
    if b == 0x20 || (b < 0x80 && FormPlain(b as char)) {
      assert all[1..] == rest && Escape(all).None?;
    } else {
      EscapeIsRead(b, rest);
    }
  }

  lemma {:induction false} FormBytesAreRead(bytes: seq<Byte>)
    ensures FormRead(FormBytes(bytes)) == bytes
  {
    if bytes != [] {
      FormByteIsRead(bytes[0], FormBytes(bytes[1..]));
      FormBytesAreRead(bytes[1..]);
    }
  }

  /** Reading a form text undoes writing it, for every text. */
  lemma FormRoundTrip(s: string)
    ensures FormDecode(FormEncode(s)) == s
  {
    FormBytesAreRead(Utf8(s));
    DecodesUtf8(s);
  }

  lemma {:induction false} FormReadsEscapes(bytes: seq<Byte>, rest: string)
    ensures FormRead(PercentAll(bytes) + rest) == bytes + FormRead(rest)
    decreases |bytes|
  {
    hide Percent, FormRead, ComponentBytes;
    if bytes == [] {
      assert PercentAll(bytes) + rest == rest;
    } else {
      var tail := PercentAll(bytes[1..]) + rest;
      assert PercentAll(bytes) + rest == Percent(bytes[0]) + tail;
      EscapeIsRead(bytes[0], tail);
      FormReadsEscapes(bytes[1..], rest);
      assert [bytes[0]] + (bytes[1..] + FormRead(rest)) == bytes + FormRead(rest);
    }
  }

  lemma {:induction false} FormReadsComponent(s: string)
    ensures FormRead(EncodeComponent(s)) == Utf8(s)
  {
    if s != "" {
      var rest := EncodeComponent(s[1..]);
      FormReadsComponent(s[1..]);
      if Unreserved(s[0]) {
        assert EncodeComponent(s)[1..] == rest;
      } else {
        FormReadsEscapes(EncodeChar(s[0]), rest);
      }
    }
  }

  /** A form reads a percent-encoded component as the same text. */
  lemma ComponentInForm(s: string)
    ensures FormDecode(EncodeComponent(s)) == s
  {
    FormReadsComponent(s);
    DecodesUtf8(s);
  }

  /** What a form text is made of. */
  predicate FormChar(c: char) {
    FormPlain(c) || c == '%' || c == '+'
  }

  lemma {:induction false} FormChars(bytes: seq<Byte>)
    ensures forall c <- FormBytes(bytes) :: FormChar(c)
  {
    if bytes != [] {
      FormChars(bytes[1..]);
      assert forall n: nat :: n < 16 ==> Alphanumeric(Digit(n));
    }
  }

  // ---- What is not well formed ----

  /** A digit is read in either case. */
  lemma LowerCaseDigits(n: nat)
    requires 10 <= n < 16
    ensures DigitValue(("abcdef")[n - 10]) == Some(n) && DigitValue(("ABCDEF")[n - 10]) == Some(n)
    ensures DigitValue('g').None? && DigitValue('G').None? && DigitValue(' ').None? && DigitValue('/').None? && DigitValue(':').None?
  {
  }

  /** A percent sign that starts no escape spoils a component, and is itself in a form. */
  lemma LonePercent(rest: string)
    requires Escape("%" + rest).None?
    ensures DecodeComponent("%" + rest).None? && FormRead("%" + rest) == [0x25] + FormRead(rest)
  {
    var s := "%" + rest;
    assert s[0] == '%' && s[1..] == rest;
  }

  /** Bytes that are no UTF-8 spoil a component, and a form shows the replacement character for each stretch of them. */
  lemma BadBytes(bytes: seq<Byte>)
    requires bytes != [] && FirstChar(bytes).Bad?
    ensures Strictly(bytes).None? && Leniently(bytes) == ['\U{FFFD}'] + Leniently(bytes[FirstChar(bytes).size..])
  {
  }

  /** A character that a text is written with when it cannot stand for itself: escapes are in capital letters. */
  predicate Escaping(c: char) {
    c == '%' || '0' <= c <= '9' || 'A' <= c <= 'F'
  }

  lemma {:induction false} EscapesAreCapital(bytes: seq<Byte>)
    ensures forall c <- PercentAll(bytes) :: Escaping(c)
    ensures bytes != [] ==> |PercentAll(bytes)| >= 3 && PercentAll(bytes)[0] == '%'
  {
    if bytes != [] {
      EscapesAreCapital(bytes[1..]);
    }
  }

  /**
   The characters that stand for themselves in a component: letters, digits and the nine marks of ECMA-262; all others are escaped.
  */
  lemma ComponentKeeps(c: char)
    ensures EncodeComponent([c]) == [c] <==>
              || (0x30 <= c as int <= 0x39) || (0x41 <= c as int <= 0x5A) || (0x61 <= c as int <= 0x7A)
              || c as int in {0x21, 0x27, 0x28, 0x29, 0x2A, 0x2D, 0x2E, 0x5F, 0x7E}
    ensures EncodeComponent([c]) != [c] ==> forall d <- EncodeComponent([c]) :: Escaping(d)
  {
    assert [c][1..] == "" && EncodeComponent("") == "";
    EscapesAreCapital(EncodeChar(c));
    assert PercentAll(EncodeChar(c)) + "" == PercentAll(EncodeChar(c));
  }

  /**
   The characters that stand for themselves in a form: letters, digits and the four that the URL Standard leaves alone; a space is
   written as a plus and all others are escaped.
  */
  lemma FormKeeps(c: char)
    ensures FormEncode([c]) == [c] <==>
              || (0x30 <= c as int <= 0x39) || (0x41 <= c as int <= 0x5A) || (0x61 <= c as int <= 0x7A)
              || c as int in {0x2A, 0x2D, 0x2E, 0x5F}
    ensures FormEncode(" ") == "+"
    ensures FormEncode([c]) != [c] && c != ' ' ==> FormEncode([c]) == PercentAll(Utf8([c]))
  {
    OneCharInForm(c);
    OneCharInForm(' ');
    EscapesAreCapital(Utf8([c]));
    hide Utf8, EncodeChar, FormBytes, FormEncode, PercentAll;
  }

  lemma OneCharInForm(c: char)
    ensures c as int < 0x80 ==> FormEncode([c]) == FormByte(c as int) && PercentAll(Utf8([c])) == Percent(c as int)
    ensures c as int >= 0x80 ==> Utf8([c]) != [] && FormEncode([c]) == PercentAll(Utf8([c]))
  {
    hide FormByte, Percent;
    assert [c][1..] == "" && Utf8([c]) == EncodeChar(c) + [] == EncodeChar(c);
    if c as int >= 0x80 {
      HighBytesAreEscaped(EncodeChar(c));
    } else {
      assert FormBytes([c as int]) == FormByte(c as int) + "" == FormByte(c as int);
      assert PercentAll([c as int]) == Percent(c as int) + "" == Percent(c as int);
    }
  }

  lemma {:induction false} HighBytesAreEscaped(bytes: seq<Byte>)
    requires forall b <- bytes :: b >= 0x80
    ensures FormBytes(bytes) == PercentAll(bytes)
  {
    if bytes != [] {
      assert bytes[0] in bytes && forall b <- bytes[1..] :: b in bytes;
      HighBytesAreEscaped(bytes[1..]);
    }
  }

  /** In a form a plus is a space; in a component it is itself. */
  lemma PlusIsASpace(rest: string)
    ensures FormRead("+" + rest) == [0x20] + FormRead(rest)
    ensures ComponentBytes(rest).Some? ==> ComponentBytes("+" + rest) == Some([0x2B] + ComponentBytes(rest).value)
  {
    var s := "+" + rest;
    assert s[0] == '+' && s[1..] == rest;
  }
}
