/** Module coordinates and the labels they are printed and cached under. */
module Coordinates {

  /** A module at a version; a version-less coordinate names a path. */
  datatype Coord = Coord(path: string, version: string)

  function Label(c: Coord): string {
    c.path + "@" + c.version
  }

  /** A module path never holds an '@'. */
  predicate Plain(path: string) {
    '@' !in path
  }

  lemma MarkNotBefore(a: string, b: string, mark: char, x: string, y: string)
    requires mark !in b && a + [mark] + x == b + [mark] + y
    ensures |b| <= |a|
  {
    var t := b + [mark] + y;
    assert (a + [mark] + x)[|a|] == mark;
    assert t[|a|] == mark;
    forall i | 0 <= i < |b|
      ensures t[i] != mark
    {
      assert t[i] == b[i];
    }
  }

  /** Text up to the first mark tells two texts apart that are free of it. */
  lemma SplitAtMark(a: string, b: string, mark: char, x: string, y: string)
    requires mark !in a && mark !in b
    requires a + [mark] + x == b + [mark] + y
    ensures a == b && x == y
  {
    MarkNotBefore(a, b, mark, x, y);
    MarkNotBefore(b, a, mark, y, x);
    var s, t := a + [mark] + x, b + [mark] + y;
    assert s[..|a|] == a && t[..|a|] == b;
    assert s[|a| + 1..] == x && t[|b| + 1..] == y;
  }

  lemma MarkNotAfter(x: string, y: string, mark: char, a: string, b: string)
    requires mark !in y && a + [mark] + x == b + [mark] + y
    ensures |a| <= |b|
  {
    var t := b + [mark] + y;
    assert (a + [mark] + x)[|a|] == mark;
    assert t[|a|] == mark;
    forall i | |b| < i < |t|
      ensures t[i] != mark
    {
      assert t[i] == y[i - |b| - 1];
    }
  }

  /** So does text after the last mark. */
  lemma SplitAtLastMark(a: string, b: string, mark: char, x: string, y: string)
    requires mark !in x && mark !in y
    requires a + [mark] + x == b + [mark] + y
    ensures a == b && x == y
  {
    MarkNotAfter(x, y, mark, a, b);
    MarkNotAfter(y, x, mark, b, a);
    var s, t := a + [mark] + x, b + [mark] + y;
    assert s[..|a|] == a && t[..|a|] == b;
    assert s[|a| + 1..] == x && t[|b| + 1..] == y;
  }
}
