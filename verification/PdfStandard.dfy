// Literal strings as section 7.3.4.2 of ISO 32000-1 reads them, beside the reader of
// reference/gen_pdf.py.
module PdfStandard {
  import opened PdfStrings

  predicate Octal(c: Byte) {
    48 <= c <= 55
  }

  // How many digits an octal code has: up to three, as many as there are.
  function Digits(s: seq<Byte>, most: nat): (n: nat)
    ensures n <= |s| && n <= most
  {
    if most > 0 && s != [] && Octal(s[0]) then 1 + Digits(s[1..], most - 1) else 0
  }

  function OctalValue(digits: seq<Byte>): nat {
    if digits == [] then 0 else OctalValue(digits[..|digits| - 1]) * 8 + digits[|digits| - 1] as nat % 8
  }

  // What a backslash and this byte stand for, by Table 3; a backslash before any other is ignored.
  function StandardEscape(c: Byte): Byte {
    if c == LETTER_N then LF
    else if c == LETTER_R then CR
    else if c == LETTER_T then TAB
    else if c == LETTER_B then 8
    else if c == LETTER_F then 12
    else c
  }

  // The bytes of an end-of-line marker: CR, LF, or both.
  function EndOfLine(s: seq<Byte>): (n: nat)
    ensures n <= |s|
  {
    if s == [] then 0
    else if s[0] == CR then if |s| > 1 && s[1] == LF then 2 else 1
    else if s[0] == LF then 1
    else 0
  }

  // The string as the standard reads it: octal codes, of which the high-order overflow is ignored,
  // the escapes of the table, no byte for a line end behind a backslash, and LF for any other.
  function StandardLiteral(s: seq<Byte>, depth: nat): seq<Byte>
    decreases |s|
  {
    if depth == 0 || s == [] then []
    else if s[0] == BACKSLASH then
      if |s| == 1 then []
      else
        var n, e := Digits(s[1..], 3), EndOfLine(s[1..]);
        if n > 0 then [(OctalValue(s[1..1 + n]) % 256) as Byte] + StandardLiteral(s[1 + n..], depth)
        else if e > 0 then StandardLiteral(s[1 + e..], depth)
        else [StandardEscape(s[1])] + StandardLiteral(s[2..], depth)
    else if EndOfLine(s) > 0 then [LF] + StandardLiteral(s[EndOfLine(s)..], depth)
    else if depth == 1 && s[0] == CLOSE then []
    else [s[0]] + StandardLiteral(s[1..], Deeper(s[0], depth))
  }

  // A raw line end of any kind is one LF.
  lemma LineEndsRead(rest: seq<Byte>, depth: nat)
    requires depth >= 1 && (rest != [] ==> rest[0] != LF)
    ensures StandardLiteral([CR, LF] + rest, depth) == [LF] + StandardLiteral(rest, depth)
    ensures StandardLiteral([CR] + rest, depth) == [LF] + StandardLiteral(rest, depth)
    ensures StandardLiteral([LF] + rest, depth) == [LF] + StandardLiteral(rest, depth)
  {
    assert ([CR, LF] + rest)[2..] == rest && ([CR] + rest)[1..] == rest && ([LF] + rest)[1..] == rest;
  }

  // Behind a backslash it is nothing.
  lemma ContinuedRead(eol: seq<Byte>, rest: seq<Byte>, depth: nat)
    requires depth >= 1 && eol in [[CR, LF], [CR], [LF]] && (rest != [] ==> rest[0] != LF)
    ensures StandardLiteral([BACKSLASH] + (eol + rest), depth) == StandardLiteral(rest, depth)
  {
    var s := [BACKSLASH] + (eol + rest);
    assert s[1..] == eol + rest && s[1 + |eol|..] == rest;
    assert EndOfLine(eol + rest) == |eol| && Digits(eol + rest, 3) == 0;
  }

  // An escape on which the reader and the standard agree: no octal digit, no line end, and neither
  // backspace nor form feed.
  predicate CommonEscape(c: Byte) {
    !Octal(c) && c != CR && c != LF && c != LETTER_B && c != LETTER_F
  }

  // The string, up to where it closes, has only such escapes and no raw carriage return.
  predicate Portable(s: seq<Byte>, depth: nat) {
    if depth == 0 || s == [] then true
    else if s[0] == BACKSLASH then |s| == 1 || (CommonEscape(s[1]) && Portable(s[2..], depth))
    else s[0] != CR && Portable(s[1..], Deeper(s[0], depth))
  }

  // The reader follows the standard exactly on the portable strings.
  lemma ReadsTheStandard(s: seq<Byte>, depth: nat)
    ensures Literal(s, depth) == StandardLiteral(s, depth) <==> Portable(s, depth)
  {
    Compared(s, depth);
  }

  // The standard never reads more bytes than the reader does, so a code or a line end that takes
  // one byte too many cannot be made up for later.
  predicate Comparison(s: seq<Byte>, depth: nat) {
    && |StandardLiteral(s, depth)| <= |Literal(s, depth)|
    && (Literal(s, depth) == StandardLiteral(s, depth) <==> Portable(s, depth))
  }

  lemma {:induction false} Compared(s: seq<Byte>, depth: nat)
    ensures Comparison(s, depth)
    decreases |s|
  {
    if depth == 0 || s == [] || (s[0] == BACKSLASH && |s| == 1) || (depth == 1 && s[0] == CLOSE) {
      NothingRead(s, depth);
    } else if s[0] == BACKSLASH {
      var n, e := Digits(s[1..], 3), EndOfLine(s[1..]);
      if n > 0 {
        Compared(s[1 + n..], depth);
        OctalCompared(s, depth, n);
      } else if e > 0 {
        Compared(s[1 + e..], depth);
        ContinuationCompared(s, depth, e);
      } else {
        Compared(s[2..], depth);
        EscapeCompared(s, depth);
      }
    } else if s[0] == CR {
      var e := EndOfLine(s);
      Compared(s[e..], depth);
      ReturnCompared(s, depth, e);
    } else {
      Compared(s[1..], Deeper(s[0], depth));
      ByteCompared(s, depth);
    }
  }

  lemma NothingRead(s: seq<Byte>, depth: nat)
    requires depth == 0 || s == [] || (s[0] == BACKSLASH && |s| == 1) || (depth == 1 && s[0] == CLOSE)
    ensures Comparison(s, depth)
  {
    assert Literal(s, depth) == [] == StandardLiteral(s, depth);
    assert Portable(s, depth);
  }

  lemma EscapeCompared(s: seq<Byte>, depth: nat)
    requires depth >= 1 && |s| > 1 && s[0] == BACKSLASH && Digits(s[1..], 3) == 0 && EndOfLine(s[1..]) == 0
    requires Comparison(s[2..], depth)
    ensures Comparison(s, depth)
  {
    var c, mine, theirs := s[1], Literal(s[2..], depth), StandardLiteral(s[2..], depth);
    assert !Octal(c) && c != CR && c != LF;
    assert Literal(s, depth) == [Unescaped(c)] + mine && StandardLiteral(s, depth) == [StandardEscape(c)] + theirs;
    SameFirst(Unescaped(c), mine, StandardEscape(c), theirs);
  }

  lemma ByteCompared(s: seq<Byte>, depth: nat)
    requires depth >= 1 && s != [] && s[0] != BACKSLASH && s[0] != CR && !(depth == 1 && s[0] == CLOSE)
    requires Comparison(s[1..], Deeper(s[0], depth))
    ensures Comparison(s, depth)
  {
    var c, mine, theirs := s[0], Literal(s[1..], Deeper(s[0], depth)), StandardLiteral(s[1..], Deeper(s[0], depth));
    assert s == [c] + s[1..];
    LiteralByte(c, s[1..], depth);
    assert StandardLiteral(s, depth) == [c] + theirs;
    SameFirst(c, mine, c, theirs);
  }

  lemma SameFirst(x: Byte, a: seq<Byte>, y: Byte, b: seq<Byte>)
    ensures [x] + a == [y] + b <==> x == y && a == b
  {
    assert ([x] + a)[1..] == a && ([y] + b)[1..] == b && ([x] + a)[0] == x && ([y] + b)[0] == y;
  }

  // Bytes that are neither backslashes nor parentheses are read as they are.
  lemma {:induction false} PlainRun(s: seq<Byte>, depth: nat, n: nat)
    requires n <= |s| && depth >= 1
    requires forall i :: 0 <= i < n ==> s[i] != BACKSLASH && s[i] != OPEN && s[i] != CLOSE
    ensures Literal(s, depth) == s[..n] + Literal(s[n..], depth)
  {
    if n > 0 {
      PlainRun(s[1..], depth, n - 1);
      assert s[1..][n - 1..] == s[n..];
      assert s[..n] == [s[0]] + s[1..][..n - 1];
    } else {
      assert s[0..] == s;
    }
  }

  lemma {:induction false} DigitsAreOctal(s: seq<Byte>, most: nat)
    ensures forall i :: 0 <= i < Digits(s, most) ==> Octal(s[i])
  {
    if most == 0 || s == [] || !Octal(s[0]) {
    } else {
      DigitsAreOctal(s[1..], most - 1);
    }
  }

  // An octal code: its first digit, and then its other digits.
  lemma OctalCompared(s: seq<Byte>, depth: nat, n: nat)
    requires depth >= 1 && |s| > 1 && s[0] == BACKSLASH && n == Digits(s[1..], 3) > 0
    requires Comparison(s[1 + n..], depth)
    ensures Comparison(s, depth)
  {
    DigitsAreOctal(s[1..], 3);
    assert forall i :: 0 <= i < n ==> s[1..][i] == s[1 + i];
    PlainRun(s[2..], depth, n - 1);
    assert s[2..][n - 1..] == s[1 + n..];
    if n == 1 {
      assert s[1..2] == [s[1]] && OctalValue([s[1]]) == OctalValue([]) * 8 + s[1] as nat % 8;
      assert Literal(s, depth)[0] == s[1] >= 48 && StandardLiteral(s, depth)[0] < 8;
    }
  }

  // A line end behind a backslash: read as its bytes, dropped by the standard.
  lemma ContinuationCompared(s: seq<Byte>, depth: nat, e: nat)
    requires depth >= 1 && |s| > 1 && s[0] == BACKSLASH && e == EndOfLine(s[1..]) > 0
    requires Comparison(s[1 + e..], depth)
    ensures Comparison(s, depth)
  {
    PlainRun(s[2..], depth, e - 1);
    assert s[2..][e - 1..] == s[1 + e..];
  }

  // A raw carriage return, with or without a line feed: read as it is, LF by the standard.
  lemma ReturnCompared(s: seq<Byte>, depth: nat, e: nat)
    requires depth >= 1 && s != [] && s[0] == CR && e == EndOfLine(s)
    requires Comparison(s[e..], depth)
    ensures Comparison(s, depth)
  {
    PlainRun(s, depth, e);
    assert Literal(s, depth)[0] == CR && StandardLiteral(s, depth)[0] == LF;
  }

  // ---------------------------------------------------------------- for a writer

  // In a writer's terms: no such escape and no raw carriage return among the tokens.
  predicate PortableToken(t: Token) {
    match t
    case Escape(c) => CommonEscape(c)
    case Raw(c) => c != CR
  }

  lemma {:induction false} PortableWritten(ts: seq<Token>, depth: nat, tail: seq<Byte>)
    requires Keeps(ts, depth)
    ensures Portable(Written(ts) + tail, depth)
      <==> (forall t :: t in ts ==> PortableToken(t)) && Portable(tail, Nesting(ts, depth))
    decreases |ts|
  {
    if ts == [] {
      assert Written(ts) + tail == tail;
    } else {
      WrittenStep(ts, tail);
      var whole, rest := Written(ts) + tail, Written(ts[1..]) + tail;
      assert ts == [ts[0]] + ts[1..];
      assert (forall t :: t in ts ==> PortableToken(t))
        <==> PortableToken(ts[0]) && forall t :: t in ts[1..] ==> PortableToken(t);
      match ts[0]
      case Raw(c) =>
        assert whole[0] == c && whole[1..] == rest;
        PortableWritten(ts[1..], Deeper(c, depth), tail);
      case Escape(c) =>
        assert whole == [BACKSLASH, c] + rest;
        assert |whole| > 1 && whole[0] == BACKSLASH && whole[1] == c && whole[2..] == rest;
        assert Portable(whole, depth) <==> CommonEscape(c) && Portable(rest, depth);
        PortableWritten(ts[1..], depth, tail);
    }
  }

  // A title written in these tokens is read as the standard reads it exactly when each of them is
  // portable.
  lemma TokensReadTheStandard(ts: seq<Token>, tail: seq<Byte>)
    requires Keeps(ts, 1) && Nesting(ts, 1) == 1
    ensures var s := Written(ts) + [CLOSE] + tail;
      Literal(s, 1) == StandardLiteral(s, 1) <==> forall t :: t in ts ==> PortableToken(t)
  {
    assert Written(ts) + [CLOSE] + tail == Written(ts) + ([CLOSE] + tail);
    PortableWritten(ts, 1, [CLOSE] + tail);
    ReadsTheStandard(Written(ts) + [CLOSE] + tail, 1);
  }

  lemma {:induction false} EscapedPortable(w: seq<Byte>)
    ensures forall t :: t in Escaped(w) ==> PortableToken(t)
  {
    if w == [] {
    } else {
      EscapedPortable(w[1..]);
    }
  }

  // The escaping of the round trip is one that every reader of the standard reads back, too.
  lemma RoundTripByTheStandard(w: seq<Byte>, tail: seq<Byte>)
    ensures StandardLiteral(Written(Escaped(w)) + [CLOSE] + tail, 1) == w
  {
    EscapedKeeps(w, 1);
    EscapedPortable(w);
    TokensReadTheStandard(Escaped(w), tail);
    RoundTrip(w, tail);
  }

  // An octal code is read as its digits: \101 is the letter A in the standard, three digits here.
  lemma OctalIsNotDecoded(tail: seq<Byte>)
    ensures Literal([BACKSLASH, 49, 48, 49, CLOSE] + tail, 1) == [49, 48, 49]
    ensures StandardLiteral([BACKSLASH, 49, 48, 49, CLOSE] + tail, 1) == [65]
  {
    var s := [BACKSLASH, 49, 48, 49, CLOSE] + tail;
    assert s == [BACKSLASH, 49] + ([48, 49, CLOSE] + tail);
    LiteralEscape(49, [48, 49, CLOSE] + tail, 1);
    PlainRun([48, 49, CLOSE] + tail, 1, 2);
    assert ([48, 49, CLOSE] + tail)[..2] == [48, 49];
    assert Digits(s[4..], 0) == 0 && Digits(s[3..], 1) == 1 && Digits(s[2..], 2) == 2 && Digits(s[1..], 3) == 3;
    var code := s[1..4];
    assert code == [49, 48, 49] && code[..2] == [49, 48] && [49 as Byte, 48][..1] == [49] && [49 as Byte][..0] == [];
    assert OctalValue([49]) == 1 && OctalValue([49, 48]) == 8 && OctalValue(code) == 65;
  }
}
