/**
 * POSIX path joining, as Python's `os.path.join` does it on the server: an absolute
 * component discards what came before, and a `/` is inserted only where the path so far
 * is non-empty and does not already end in one.
 */
module Paths {

  predicate IsAbsolute(p: string) {
    |p| > 0 && p[0] == '/'
  }

  /** The path so far needs no separator before the next component. */
  predicate OpenEnded(p: string) {
    p == [] || p[|p| - 1] == '/'
  }

  /** `os.path.join(a, b)`. */
  function PathJoin(a: string, b: string): (r: string)
    ensures IsAbsolute(b) ==> r == b
    ensures !IsAbsolute(b) ==> r == a + (if OpenEnded(a) then "" else "/") + b
  {
    if IsAbsolute(b) then b
    else if OpenEnded(a) then a + b
    else a + "/" + b
  }

  /** `os.path.join(a, b, c)`: the components are joined from the left. */
  function PathJoin3(a: string, b: string, c: string): string {
    PathJoin(PathJoin(a, b), c)
  }

  /** The joined path ends with the last component, and it begins with the first one unless
      the last is absolute. */
  lemma PathJoinEnds(a: string, b: string)
    ensures |PathJoin(a, b)| >= |b| && PathJoin(a, b)[|PathJoin(a, b)| - |b|..] == b
    ensures !IsAbsolute(b) ==> |PathJoin(a, b)| >= |a| && PathJoin(a, b)[..|a|] == a
  {
  }

  /** Joining is associative: joining `c` onto `a/b` names the same path as joining `b/c`
      onto `a`. */
  lemma PathJoinAssociative(a: string, b: string, c: string)
    ensures PathJoin(PathJoin(a, b), c) == PathJoin(a, PathJoin(b, c))
  {
    var bc := PathJoin(b, c);
    if IsAbsolute(c) {
    } else if IsAbsolute(b) {
      assert bc[0] == b[0];
    } else if b == [] {
      assert bc == c;
      if !OpenEnded(a) {
        assert PathJoin(a, b) == a + "/";
        assert (a + "/") + c == a + "/" + c;
      }
    } else {
      var ab := PathJoin(a, b);
      var sep1 := if OpenEnded(a) then "" else "/";
      var sep2 := if OpenEnded(b) then "" else "/";
      assert ab == a + sep1 + b;
      assert ab[|ab| - 1] == b[|b| - 1];
      assert OpenEnded(ab) == OpenEnded(b);
      assert bc == b + sep2 + c;
      assert bc[0] == b[0];
      assert !IsAbsolute(bc);
      assert (a + sep1 + b) + sep2 + c == a + sep1 + (b + sep2 + c);
    }
  }
}
