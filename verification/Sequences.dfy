// Facts about sequences of any elements.
module Sequences {

  lemma Regroup<T>(a: seq<T>, b: seq<T>, c: seq<T>)
    ensures (a + b) + c == a + (b + c)
  {
  }

  lemma RegroupFour<T>(a: seq<T>, b: seq<T>, c: seq<T>, d: seq<T>)
    ensures a + b + c + d == a + (b + c + d)
  {
  }

  function Count<T(==)>(s: seq<T>, x: T): nat {
    if s == [] then 0 else (if s[0] == x then 1 else 0) + Count(s[1..], x)
  }

  // Two sequences joined by a separator come apart in one way, once it is known how many separators
  // the first part holds.
  lemma {:induction false} CutAtSeparator<T>(a: seq<T>, b: seq<T>, c: seq<T>, d: seq<T>, sep: T)
    requires Count(a, sep) == Count(c, sep) && a + [sep] + b == c + [sep] + d
    ensures a == c && b == d
  {
    var whole := a + [sep] + b;
    if a == [] || c == [] {
      FirstIsSeparator(a, b, sep);
      FirstIsSeparator(c, d, sep);
      assert whole[1..] == b && whole[1..] == d;
    } else {
      assert whole[0] == a[0] == c[0];
      assert whole[1..] == a[1..] + [sep] + b == c[1..] + [sep] + d;
      CutAtSeparator(a[1..], b, c[1..], d, sep);
      assert a == [a[0]] + a[1..] && c == [c[0]] + c[1..];
    }
  }

  lemma FirstIsSeparator<T>(a: seq<T>, b: seq<T>, sep: T)
    requires Count(a, sep) == 0
    ensures (a + [sep] + b)[0] == sep <==> a == []
  {
  }

  lemma {:induction false} NoneCounted<T>(s: seq<T>, x: T)
    ensures Count(s, x) == 0 <==> x !in s
  {
    if s == [] {
    } else {
      NoneCounted(s[1..], x);
    }
  }
}
