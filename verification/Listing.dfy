/** Directory listings: the entries' names in the sorted order a directory read returns them. */
module Listing {
  import opened FileTree

  predicate Leq(a: string, b: string) {
    a == [] || (b != [] && (a[0] < b[0] || (a[0] == b[0] && Leq(a[1..], b[1..]))))
  }

  lemma LeqTotal(a: string, b: string)
    ensures Leq(a, b) || Leq(b, a)
  {
  }

  lemma LeqAntisymmetric(a: string, b: string)
    requires Leq(a, b) && Leq(b, a)
    ensures a == b
  {
    if a != [] && b != [] {
      LeqAntisymmetric(a[1..], b[1..]);
      assert a == [a[0]] + a[1..] && b == [b[0]] + b[1..];
    }
  }

  lemma LeqTransitive(a: string, b: string, c: string)
    requires Leq(a, b) && Leq(b, c)
    ensures Leq(a, c)
  {
  }

  predicate IsLeast(x: string, names: set<string>) {
    x in names && forall y | y in names :: Leq(x, y)
  }

  lemma LeastExists(names: set<string>)
    requires names != {}
    ensures exists x :: IsLeast(x, names)
    decreases names
  {
    var x :| x in names;
    var rest := names - {x};
    LeqTotal(x, x);
    if rest == {} {
      assert names == {x} + rest;
      assert IsLeast(x, names);
    } else {
      LeastExists(rest);
      var y :| IsLeast(y, rest);
      LeqTotal(x, y);
      if Leq(x, y) {
        forall z | z in names ensures Leq(x, z) {
          if z != x { LeqTransitive(x, y, z); }
        }
        assert IsLeast(x, names);
      } else {
        assert IsLeast(y, names);
      }
    }
  }

  function Least(names: set<string>): (x: string)
    requires names != {}
    ensures IsLeast(x, names)
  {
    LeastExists(names);
    assert forall a, b | IsLeast(a, names) && IsLeast(b, names) :: a == b by {
      forall a, b | IsLeast(a, names) && IsLeast(b, names) ensures a == b {
        LeqAntisymmetric(a, b);
      }
    }
    var y :| y in names && IsLeast(y, names);
    y
  }

  /** The names in ascending order. */
  function Sorted(names: set<string>): (s: seq<string>)
    ensures forall x :: x in s <==> x in names
    decreases names
  {
    if names == {} then [] else [Least(names)] + Sorted(names - {Least(names)})
  }

  predicate IsChild(dir: Path, p: Path) {
    p != [] && Parent(p) == dir
  }

  function Names(t: Tree, dir: Path): (s: set<string>)
    ensures forall x :: x in s <==> dir + [x] in t
  {
    var s := set p | p in t && IsChild(dir, p) :: p[|p| - 1];
    assert forall x :: x in s <==> dir + [x] in t by {
      forall x | dir + [x] in t ensures x in s {
        var p := dir + [x];
        assert Parent(p) == dir && IsChild(dir, p) && p[|p| - 1] == x;
      }
      forall x | x in s ensures dir + [x] in t {
        var p :| p in t && IsChild(dir, p) && p[|p| - 1] == x;
        assert p == dir + [x];
      }
    }
    s
  }

  /** What reading directory `dir` returns. */
  function Entries(t: Tree, dir: Path): (s: seq<string>)
    ensures forall x :: x in s <==> dir + [x] in t
  {
    Sorted(Names(t, dir))
  }
}
