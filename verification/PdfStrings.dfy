// reference/gen_pdf.py, title inside outline_titles: reading a PDF literal string (section 7.3.4.2
// of ISO 32000-1).
module PdfStrings {
  import opened Sequences

  newtype Byte = b: int | 0 <= b < 256

  const OPEN: Byte := 40
  const CLOSE: Byte := 41
  const BACKSLASH: Byte := 92
  const LF: Byte := 10
  const CR: Byte := 13
  const TAB: Byte := 9
  const LETTER_N: Byte := 110
  const LETTER_R: Byte := 114
  const LETTER_T: Byte := 116
  const LETTER_B: Byte := 98
  const LETTER_F: Byte := 102

  // What a backslash and this byte stand for.
  function Unescaped(c: Byte): Byte {
    if c == LETTER_N then LF else if c == LETTER_R then CR else if c == LETTER_T then TAB else c
  }

  // The string that starts here, inside this many open parentheses.
  function Literal(s: seq<Byte>, depth: nat): seq<Byte> {
    if depth == 0 || s == [] then []
    else if s[0] == BACKSLASH then
      if |s| == 1 then [] else [Unescaped(s[1])] + Literal(s[2..], depth)
    else if s[0] == OPEN then [OPEN] + Literal(s[1..], depth + 1)
    else if s[0] == CLOSE then
      if depth == 1 then [] else [CLOSE] + Literal(s[1..], depth - 1)
    else [s[0]] + Literal(s[1..], depth)
  }

  // How one byte that is not a backslash changes the nesting.
  function Deeper(c: Byte, depth: nat): nat
    requires depth >= 1
  {
    if c == OPEN then depth + 1 else if c == CLOSE then depth - 1 else depth
  }

  lemma LiteralByte(c: Byte, rest: seq<Byte>, depth: nat)
    requires depth >= 1 && c != BACKSLASH
    ensures Literal([c] + rest, depth)
         == if Deeper(c, depth) == 0 then [] else [c] + Literal(rest, Deeper(c, depth))
  {
    assert ([c] + rest)[1..] == rest;
  }

  lemma LiteralEscape(c: Byte, rest: seq<Byte>, depth: nat)
    requires depth >= 1
    ensures Literal([BACKSLASH, c] + rest, depth) == [Unescaped(c)] + Literal(rest, depth)
  {
    assert ([BACKSLASH, c] + rest)[2..] == rest;
  }

  // The string from a position of an object on.
  function From(obj: seq<Byte>, i: nat, depth: nat): seq<Byte> {
    if i <= |obj| then Literal(obj[i..], depth) else []
  }

  // Read so far and still to read, before and after a turn of the loop.
  predicate Reads(out: seq<Byte>, obj: seq<Byte>, i: nat, depth: nat, whole: seq<Byte>) {
    out + From(obj, i, depth) == whole
  }

  function Read(obj: seq<Byte>, i: nat): seq<Byte> {
    if i < |obj| then [Unescaped(obj[i])] else []
  }

  lemma EscapeTurn(out: seq<Byte>, obj: seq<Byte>, i: nat, depth: nat, whole: seq<Byte>)
    requires i < |obj| && depth >= 1 && obj[i] == BACKSLASH && Reads(out, obj, i, depth, whole)
    ensures Reads(out + Read(obj, i + 1), obj, i + 2, depth, whole)
  {
    if i + 1 < |obj| {
      assert obj[i..] == [BACKSLASH, obj[i + 1]] + obj[i + 2..];
      LiteralEscape(obj[i + 1], obj[i + 2..], depth);
    }
    Regroup(out, Read(obj, i + 1), From(obj, i + 2, depth));
  }

  lemma ByteTurn(out: seq<Byte>, obj: seq<Byte>, i: nat, depth: nat, whole: seq<Byte>)
    requires i < |obj| && depth >= 1 && obj[i] != BACKSLASH && Reads(out, obj, i, depth, whole)
    ensures if Deeper(obj[i], depth) == 0 then out == whole
            else Reads(out + [obj[i]], obj, i + 1, Deeper(obj[i], depth), whole)
  {
    assert obj[i..] == [obj[i]] + obj[i + 1..];
    LiteralByte(obj[i], obj[i + 1..], depth);
    Regroup(out, [obj[i]], From(obj, i + 1, Deeper(obj[i], depth)));
  }

  lemma LastTurn(out: seq<Byte>, obj: seq<Byte>, i: nat, depth: nat, whole: seq<Byte>)
    requires i >= |obj| && Reads(out, obj, i, depth, whole)
    ensures out == whole
  {
  }

  // The loop, from just behind the opening parenthesis.
  method ReadLiteral(obj: seq<Byte>, start: nat) returns (out: seq<Byte>)
    requires start <= |obj|
    ensures out == Literal(obj[start..], 1)
  {
    var i, depth := start, 1;
    out := [];
    ghost var whole := From(obj, start, 1);
    while depth > 0 && i < |obj|
      invariant i >= start && depth >= 1
      invariant Reads(out, obj, i, depth, whole)
      decreases |obj| - i
    {
      var c := obj[i];
      if c == BACKSLASH {
        EscapeTurn(out, obj, i, depth, whole);
        out := out + Read(obj, i + 1);
        i := i + 2;
        continue;
      }
      ByteTurn(out, obj, i, depth, whole);
      if c == OPEN {
        depth := depth + 1;
      } else if c == CLOSE {
        depth := depth - 1;
        if depth == 0 {
          return;
        }
      }
      out := out + [c];
      i := i + 1;
    }
    LastTurn(out, obj, i, depth, whole);
  }

  // ---------------------------------------------------------------- writing a string

  // A writer's choice for each byte: as it is, or behind a backslash.
  datatype Token = Raw(c: Byte) | Escape(c: Byte)

  function Written(ts: seq<Token>): seq<Byte> {
    if ts == [] then []
    else (match ts[0] case Raw(c) => [c] case Escape(c) => [BACKSLASH, c]) + Written(ts[1..])
  }

  function Value(ts: seq<Token>): seq<Byte> {
    if ts == [] then []
    else [match ts[0] case Raw(c) => c case Escape(c) => Unescaped(c)] + Value(ts[1..])
  }

  // No raw parenthesis closes the string itself and no backslash is raw.
  predicate Keeps(ts: seq<Token>, depth: nat) {
    depth >= 1 &&
    (ts == [] ||
      match ts[0]
      case Escape(_) => Keeps(ts[1..], depth)
      case Raw(c) => c != BACKSLASH && Keeps(ts[1..], Deeper(c, depth)))
  }

  // The nesting after these tokens.
  function Nesting(ts: seq<Token>, depth: nat): nat
    requires Keeps(ts, depth)
  {
    if ts == [] then depth
    else
      match ts[0]
      case Escape(_) => Nesting(ts[1..], depth)
      case Raw(c) => Nesting(ts[1..], Deeper(c, depth))
  }

  // Reading what was written gives its value back, and goes on at the nesting it reached.
  lemma {:induction false} ReadWritten(ts: seq<Token>, depth: nat, tail: seq<Byte>)
    requires Keeps(ts, depth)
    ensures Literal(Written(ts) + tail, depth) == Value(ts) + Literal(tail, Nesting(ts, depth))
    decreases |ts|
  {
    if ts == [] {
      assert Written(ts) + tail == tail;
    } else {
      WrittenStep(ts, tail);
      var rest := Written(ts[1..]) + tail;
      match ts[0]
      case Raw(c) =>
        LiteralByte(c, rest, depth);
        ReadWritten(ts[1..], Deeper(c, depth), tail);
        Regroup([c], Value(ts[1..]), Literal(tail, Nesting(ts, depth)));
      case Escape(c) =>
        LiteralEscape(c, rest, depth);
        ReadWritten(ts[1..], depth, tail);
        Regroup([Unescaped(c)], Value(ts[1..]), Literal(tail, Nesting(ts, depth)));
    }
  }

  lemma WrittenStep(ts: seq<Token>, tail: seq<Byte>)
    requires ts != []
    ensures Written(ts) + tail
         == (match ts[0] case Raw(c) => [c] case Escape(c) => [BACKSLASH, c]) + (Written(ts[1..]) + tail)
  {
  }

  // Whatever balanced mixture of raw and escaped bytes a title is written in, it is read as its value.
  lemma BalancedIsRead(ts: seq<Token>, tail: seq<Byte>)
    requires Keeps(ts, 1) && Nesting(ts, 1) == 1
    ensures Literal(Written(ts) + [CLOSE] + tail, 1) == Value(ts)
  {
    ReadWritten(ts, 1, [CLOSE] + tail);
    assert Written(ts) + [CLOSE] + tail == Written(ts) + ([CLOSE] + tail);
    assert Literal([CLOSE] + tail, 1) == [];
  }

  // Escaping every backslash, parenthesis, CR, LF and TAB.
  function Escaped(w: seq<Byte>): seq<Token> {
    if w == [] then []
    else
      [if w[0] == BACKSLASH || w[0] == OPEN || w[0] == CLOSE then Escape(w[0])
       else if w[0] == LF then Escape(LETTER_N)
       else if w[0] == CR then Escape(LETTER_R)
       else if w[0] == TAB then Escape(LETTER_T)
       else Raw(w[0])] + Escaped(w[1..])
  }

  lemma {:induction false} EscapedKeeps(w: seq<Byte>, depth: nat)
    requires depth >= 1
    ensures Keeps(Escaped(w), depth) && Nesting(Escaped(w), depth) == depth && Value(Escaped(w)) == w
  {
    if w == [] {
    } else {
      EscapedKeeps(w[1..], depth);
      assert Escaped(w)[1..] == Escaped(w[1..]);
    }
  }

  // Any byte string survives being escaped and read.
  lemma RoundTrip(w: seq<Byte>, tail: seq<Byte>)
    ensures Literal(Written(Escaped(w)) + [CLOSE] + tail, 1) == w
  {
    EscapedKeeps(w, 1);
    BalancedIsRead(Escaped(w), tail);
  }

  // ---------------------------------------------------------------- writing a string as it is

  // Parentheses that return to depth one without closing the string before, and no backslash.
  predicate Balanced(w: seq<Byte>, depth: nat) {
    depth >= 1 && if w == [] then depth == 1 else w[0] != BACKSLASH && Balanced(w[1..], Deeper(w[0], depth))
  }

  // A string may be written as it is exactly when its parentheses balance and it has no backslash.
  lemma RawIsRead(w: seq<Byte>, tail: seq<Byte>)
    ensures Literal(w + [CLOSE] + tail, 1) == w <==> Balanced(w, 1)
  {
    assert w + [CLOSE] + tail == w + ([CLOSE] + tail);
    RawFrom(w, 1, [CLOSE] + tail);
  }

  lemma {:induction false} RawFrom(w: seq<Byte>, depth: nat, tail: seq<Byte>)
    requires depth >= 1 && tail != [] && tail[0] == CLOSE
    ensures Literal(w + tail, depth) == w <==> Balanced(w, depth)
    decreases |w|
  {
    if w == [] {
      assert w + tail == tail == [CLOSE] + tail[1..];
      LiteralByte(CLOSE, tail[1..], depth);
    } else if w[0] == BACKSLASH {
      BehindBackslash(w, [], depth, tail);
    } else {
      assert w + tail == [w[0]] + (w[1..] + tail) && w == [w[0]] + w[1..];
      LiteralByte(w[0], w[1..] + tail, depth);
      if Deeper(w[0], depth) > 0 {
        RawFrom(w[1..], Deeper(w[0], depth), tail);
      }
    }
  }

  // A backslash would have to stand for itself, and for that the next byte is a backslash, and so on
  // until the string runs out: what is read never has the backslashes that were written.
  lemma {:induction false} BehindBackslash(w: seq<Byte>, ahead: seq<Byte>, depth: nat, tail: seq<Byte>)
    requires depth >= 1 && tail != [] && tail[0] == CLOSE
    requires (forall i :: 0 <= i < |ahead| ==> ahead[i] == BACKSLASH) && ahead + w != [] && (ahead + w)[0] == BACKSLASH
    ensures Literal(w + tail, depth) != ahead + w
    decreases |w|
  {
    if w == [] {
      assert w + tail == [CLOSE] + tail[1..];
      LiteralByte(CLOSE, tail[1..], depth);
    } else if w[0] != BACKSLASH {
      assert w + tail == [w[0]] + (w[1..] + tail);
      LiteralByte(w[0], w[1..] + tail, depth);
    } else if |w| == 1 {
      assert w + tail == [BACKSLASH, CLOSE] + tail[1..];
      LiteralEscape(CLOSE, tail[1..], depth);
    } else {
      assert w + tail == [BACKSLASH, w[1]] + (w[2..] + tail);
      LiteralEscape(w[1], w[2..] + tail, depth);
      if w[1] == BACKSLASH {
        var more := ahead + [BACKSLASH];
        assert ahead + w == [BACKSLASH] + (more + w[2..]);
        BehindBackslash(w[2..], more, depth, tail);
        var read := Literal(w[2..] + tail, depth);
        assert ([BACKSLASH] + read)[1..] == read && ([BACKSLASH] + (more + w[2..]))[1..] == more + w[2..];
      } else {
        assert Unescaped(w[1]) != BACKSLASH;
      }
    }
  }
}
