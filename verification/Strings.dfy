/** How texts put together from parts can be taken apart. */
module Strings {
  /** A text is cut in only one way at the first separator. */
  lemma {:induction false} CutOnce(a: string, x: string, b: string, y: string, sep: char)
    requires sep !in a && sep !in b
    requires a + ([sep] + x) == b + ([sep] + y)
    ensures a == b && x == y
  {
    var s, t := a + ([sep] + x), b + ([sep] + y);
    if a == "" || b == "" {
      assert s[0] == t[0];
      assert a == "" ==> s[0] == sep;
      assert b == "" ==> t[0] == sep;
      assert a == "" && b == "" && s[1..] == x && t[1..] == y;
    } else {
      assert s[0] == a[0] && t[0] == b[0];
      assert s[1..] == a[1..] + ([sep] + x) && t[1..] == b[1..] + ([sep] + y);
      CutOnce(a[1..], x, b[1..], y, sep);
      assert a == [a[0]] + a[1..] && b == [b[0]] + b[1..];
    }
  }

  lemma SamePrefix(p: string, a: string, b: string)
    requires p + a == p + b
    ensures a == b
  {
    assert (p + a)[|p|..] == a && (p + b)[|p|..] == b;
  }

  lemma Assoc<T>(a: seq<T>, b: seq<T>, c: seq<T>)
    ensures a + b + c == a + (b + c)
  {
  }
}
