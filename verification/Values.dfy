/** The value held by a table of outputs, and how single updates change it. */
module Values {
  import opened Prelude
  import opened Types

  ghost function ValueOf(m: Utxos): nat {
    if m == map[] then 0
    else
      var o :| o in m;
      m[o].GetValue() + ValueOf(m - {o})
  }

  lemma {:induction false} ValueWithout(m: Utxos, o: OutPoint)
    requires o in m
    ensures ValueOf(m) == m[o].GetValue() + ValueOf(m - {o})
    decreases |m|
  {
    var p :| p in m && ValueOf(m) == m[p].GetValue() + ValueOf(m - {p});
    if p != o {
      ValueWithout(m - {p}, o);
      assert m - {p} - {o} == m - {o} - {p};
      ValueWithout(m - {o}, p);
    }
  }

  lemma {:induction false} ValueWith(m: Utxos, o: OutPoint, output: Output)
    requires o !in m
    ensures ValueOf(m[o := output]) == ValueOf(m) + output.GetValue()
  {
    ValueWithout(m[o := output], o);
    assert m[o := output] - {o} == m;
  }

  /** A put can only lose value: it adds the new output and drops what it overwrites. */
  lemma {:induction false} ValueAfterPut(m: Utxos, o: OutPoint, output: Output)
    ensures ValueOf(m[o := output]) <= ValueOf(m) + output.GetValue()
  {
    assert m[o := output] == (m - {o})[o := output];
    ValueWith(m - {o}, o, output);
    if o in m {
      ValueWithout(m, o);
    } else {
      assert m - {o} == m;
    }
  }

  /** A put over something worthless loses nothing. */
  lemma {:induction false} ValueOverWorthless(m: Utxos, o: OutPoint, output: Output)
    requires o in m ==> m[o].GetValue() == 0
    ensures ValueOf(m[o := output]) == ValueOf(m) + output.GetValue()
  {
    assert m[o := output] == (m - {o})[o := output];
    ValueWith(m - {o}, o, output);
    if o in m {
      ValueWithout(m, o);
    } else {
      assert m - {o} == m;
    }
  }

  lemma {:induction false} UnionWithout(m: Utxos, n: Utxos, o: OutPoint)
    requires o in n
    ensures m + n == (m + (n - {o}))[o := n[o]]
  {
    var l, r := m + n, (m + (n - {o}))[o := n[o]];
    forall p ensures p in l <==> p in r {}
    forall p | p in l ensures l[p] == r[p] {}
  }

  lemma {:induction false} ValueOfDisjointUnion(m: Utxos, n: Utxos)
    requires m.Keys !! n.Keys
    ensures ValueOf(m + n) == ValueOf(m) + ValueOf(n)
    decreases |n|
  {
    if n == map[] {
      assert m + n == m;
    } else {
      var o :| o in n;
      var rest := n - {o};
      assert ValueOf(m + n) == ValueOf(m + rest) + n[o].GetValue() by {
        UnionWithout(m, n, o);
        ValueWith(m + rest, o, n[o]);
      }
      assert ValueOf(n) == n[o].GetValue() + ValueOf(rest) by {
        ValueWithout(n, o);
      }
      ValueOfDisjointUnion(m, rest);
    }
  }

  lemma {:induction false} ValueOfUnion(m: Utxos, n: Utxos)
    ensures ValueOf(m + n) <= ValueOf(m) + ValueOf(n)
  {
    assert m + n == (m - n.Keys) + n;
    ValueOfDisjointUnion(m - n.Keys, n);
    ValueSplit(m, n.Keys);
  }

  lemma {:induction false} ValueOfWorthless(m: Utxos)
    requires forall o :: o in m ==> m[o].GetValue() == 0
    ensures ValueOf(m) == 0
    decreases |m|
  {
    if m != map[] {
      var o :| o in m;
      ValueWithout(m, o);
      ValueOfWorthless(m - {o});
    }
  }

  /** A union that only overwrites what is worthless loses nothing. */
  lemma {:induction false} ValueOfWorthlessOverlap(m: Utxos, n: Utxos)
    requires forall o :: o in m && o in n ==> m[o].GetValue() == 0
    ensures ValueOf(m + n) == ValueOf(m) + ValueOf(n)
  {
    assert m + n == (m - n.Keys) + n;
    ValueOfDisjointUnion(m - n.Keys, n);
    ValueSplit(m, n.Keys);
    ValueOfWorthless(Restrict(m, n.Keys));
  }

  /** Removing a set of keys splits the value into what stays and what goes. */
  lemma {:induction false} ValueSplit(m: Utxos, keys: set<OutPoint>)
    ensures ValueOf(m) == ValueOf(m - keys) + ValueOf(Restrict(m, keys))
  {
    assert m == (m - keys) + Restrict(m, keys);
    ValueOfDisjointUnion(m - keys, Restrict(m, keys));
  }

  function Restrict(m: Utxos, keys: set<OutPoint>): Utxos {
    map o | o in m && o in keys :: m[o]
  }

  lemma {:induction false} ValueOfPart(part: Utxos, whole: Utxos)
    requires part == Restrict(whole, part.Keys)
    ensures ValueOf(part) <= ValueOf(whole)
  {
    ValueSplit(whole, part.Keys);
  }

  lemma {:induction false} OneMoreKey(utxos: Utxos, order: seq<OutPoint>, i: nat)
    requires NoDuplicates(order) && Elements(order) == utxos.Keys && i < |order|
    ensures order[i] in utxos && order[i] !in Restrict(utxos, Elements(order[..i]))
    ensures Restrict(utxos, Elements(order[..i + 1]))
         == Restrict(utxos, Elements(order[..i]))[order[i] := utxos[order[i]]]
  {
    assert order[i] in Elements(order);
    assert Elements(order[..i + 1]) == Elements(order[..i]) + {order[i]};
    assert order[i] !in order[..i];
  }

  lemma {:induction false} PutIntoUnion(utxos: Utxos, table: Utxos, o: OutPoint, output: Output)
    ensures (utxos + table)[o := output] == utxos + table[o := output]
  {
  }

  /** Puts all entries of a table, in any order. */
  method PutTable(utxos: Utxos, table: Utxos) returns (r: Utxos)
    ensures r == utxos + table
  {
    r := utxos;
    var order := AnyOrder(table.Keys);
    ghost var done: Utxos := Restrict(table, Elements(order[..0]));
    assert utxos + done == utxos;
    for i := 0 to |order|
      invariant done == Restrict(table, Elements(order[..i])) && r == utxos + done
    {
      OneMoreKey(table, order, i);
      PutIntoUnion(utxos, done, order[i], table[order[i]]);
      r := r[order[i] := table[order[i]]];
      done := done[order[i] := table[order[i]]];
    }
    assert order[..|order|] == order && done == table;
  }

  lemma {:induction false} PutBack(utxos: Utxos, part: Utxos)
    requires part == Restrict(utxos, part.Keys)
    ensures utxos - part.Keys + part == utxos
  {
  }
}
