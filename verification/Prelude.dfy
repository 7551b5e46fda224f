/** Result and option types, and facts about sequences that several modules need. */
module Prelude {

  datatype Option<+T> = None | Some(value: T)

  datatype Result<+T, +E> = Ok(value: T) | Err(error: E)

  function Elements<T(==)>(s: seq<T>): set<T> {
    set x | x in s
  }

  ghost predicate NoDuplicates<T>(s: seq<T>) {
    forall i, j :: 0 <= i < j < |s| ==> s[i] != s[j]
  }

  lemma {:induction false} OneMore<T>(s: seq<T>, i: nat)
    requires i < |s|
    ensures s[..i + 1] == s[..i] + [s[i]]
  {
  }

  lemma {:induction false} ElementsAppend<T>(a: seq<T>, b: seq<T>)
    ensures Elements(a + b) == Elements(a) + Elements(b)
  {
  }

  lemma {:induction false} RestSplit<T>(s: seq<T>, i: nat, j: nat)
    requires i <= j <= |s|
    ensures s[i..] == s[..j][i..j] + s[j..]
  {
  }

  lemma {:induction false} NoDuplicatesSplit<T>(a: seq<T>, b: seq<T>)
    ensures NoDuplicates(a + b) <==> NoDuplicates(a) && NoDuplicates(b) && Elements(a) !! Elements(b)
  {
    var s := a + b;
    if NoDuplicates(s) {
      forall i, j | 0 <= i < j < |a| ensures a[i] != a[j] {
        assert s[i] == a[i] && s[j] == a[j];
      }
      forall i, j | 0 <= i < j < |b| ensures b[i] != b[j] {
        assert s[|a| + i] == b[i] && s[|a| + j] == b[j];
      }
      forall x | x in Elements(a) ensures x !in Elements(b) {
        var i :| 0 <= i < |a| && a[i] == x;
        forall j | 0 <= j < |b| ensures b[j] != x {
          assert s[i] == x && s[|a| + j] == b[j];
        }
      }
    }
    if NoDuplicates(a) && NoDuplicates(b) && Elements(a) !! Elements(b) {
      forall i, j | 0 <= i < j < |s| ensures s[i] != s[j] {
        if i < |a| <= j {
          assert s[i] in Elements(a) && s[j] in Elements(b);
        }
      }
    }
  }

  lemma {:induction false} SharedElement<T>(a: seq<T>, b: seq<T>, x: T)
    requires x in a && x in b
    ensures !NoDuplicates(a + b)
  {
    var i :| 0 <= i < |a| && a[i] == x;
    var j :| 0 <= j < |b| && b[j] == x;
    assert (a + b)[i] == (a + b)[|a| + j];
  }

  /** A sequence without repetition is as long as the set of its elements. */
  lemma {:induction false} NoDuplicatesSize<T>(s: seq<T>)
    requires NoDuplicates(s)
    ensures |Elements(s)| == |s|
  {
    if |s| > 0 {
      var init, last := s[..|s| - 1], s[|s| - 1];
      NoDuplicatesSize(init);
      assert Elements(s) == Elements(init) + {last};
    }
  }

  /**
   The elements of a set in an order nothing decides: what iterating a hash map gives,
   and what a sort gives under a comparison that is not a total order.
   */
  method AnyOrder<T>(s: set<T>) returns (r: seq<T>)
    ensures NoDuplicates(r) && Elements(r) == s
  {
    r := [];
    var rest := s;
    while rest != {}
      invariant NoDuplicates(r) && Elements(r) + rest == s && Elements(r) !! rest
      decreases rest
    {
      var x :| x in rest;
      NoDuplicatesSplit(r, [x]);
      assert Elements([x]) == {x} && Elements(r + [x]) == Elements(r) + {x};
      r := r + [x];
      rest := rest - {x};
    }
  }

  lemma {:induction false} SomeOrder<T>(s: set<T>) returns (r: seq<T>)
    ensures NoDuplicates(r) && Elements(r) == s
  {
    r := [];
    if s != {} {
      var x :| x in s;
      r := SomeOrder(s - {x});
      NoDuplicatesSplit(r, [x]);
      assert Elements([x]) == {x} && Elements(r + [x]) == Elements(r) + {x};
      r := r + [x];
    }
  }
}
