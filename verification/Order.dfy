/** Python's `sorted` on a set of paths. */
module Order {
  import opened Prelude

  ghost predicate IsLeast(x: Path, s: set<Path>) {
    x in s && forall y | y in s :: y == x || Less(x, y)
  }

  lemma {:induction false} LeastExists(s: set<Path>)
    requires s != {}
    ensures exists x: Path :: IsLeast(x, s)
    decreases |s|
  {
    var x :| x in s;
    if s - {x} == {} {
      assert s == {x};
      assert IsLeast(x, s);
    } else {
      LeastExists(s - {x});
      var y: Path :| IsLeast(y, s - {x});
      LessIsTotal(x, y);
      if Less(x, y) {
        forall z: Path | z in s
          ensures z == x || Less(x, z)
        {
          if z != x && z != y {
            LessIsTransitive(x, y, z);
          }
        }
        assert IsLeast(x, s);
      } else {
        assert IsLeast(y, s);
      }
    }
  }

  lemma LeastIsUnique(s: set<Path>)
    ensures forall x: Path, y: Path | IsLeast(x, s) && IsLeast(y, s) :: x == y
  {
    forall x: Path, y: Path | IsLeast(x, s) && IsLeast(y, s)
      ensures x == y
    {
      LessIsTotal(x, y);
    }
  }

  function Least(s: set<Path>): (x: Path)
    requires s != {}
    ensures IsLeast(x, s)
  {
    LeastExists(s);
    LeastIsUnique(s);
    assert forall x: Path | x in s && (forall y | y in s :: y == x || Less(x, y)) :: IsLeast(x, s);
    var x: Path :| x in s && forall y | y in s :: y == x || Less(x, y);
    x
  }

  function Sorted(s: set<Path>): seq<Path> {
    if s == {} then [] else [Least(s)] + Sorted(s - {Least(s)})
  }

  ghost predicate Ascends(q: seq<Path>) {
    forall i, j | 0 <= i < j < |q| :: Less(q[i], q[j])
  }

  lemma {:induction false} SortedIsAscending(s: set<Path>)
    ensures Ascends(Sorted(s))
    ensures forall x :: x in Sorted(s) <==> x in s
    decreases |s|
  {
    if s != {} {
      var least, rest := Least(s), Sorted(s - {Least(s)});
      SortedIsAscending(s - {least});
      forall i, j | 0 <= i < j < |Sorted(s)|
        ensures Less(Sorted(s)[i], Sorted(s)[j])
      {
        assert rest[j - 1] in rest;
        if i > 0 {
          assert Less(rest[i - 1], rest[j - 1]);
        }
      }
    }
  }
}
