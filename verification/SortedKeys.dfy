/** Least and greatest keys, and key-ascending record lists: what an ordered map
    iterates and what a segment stores. */
module SortedKeys {
  import opened ByteOrder
  import opened KvBatch

  datatype Record = Record(key: Key, value: Value)

  predicate IsLeast(k: Key, s: set<Key>) {
    k in s && forall j :: j in s && j != k ==> Less(k, j)
  }

  predicate IsGreatest(k: Key, s: set<Key>) {
    k in s && forall j :: j in s && j != k ==> Less(j, k)
  }

  lemma {:induction false} HasLeast(s: set<Key>)
    requires s != {}
    ensures exists k :: IsLeast(k, s)
    decreases |s|
  {
    hide Less;
    var x :| x in s;
    if s == {x} {
      assert IsLeast(x, s);
    } else {
      HasLeast(s - {x});
      var k :| IsLeast(k, s - {x});
      LessIsTotal(x, k);
      if Less(x, k) {
        forall j | j in s && j != x ensures Less(x, j) {
          if j != k {
            LessIsTransitive(x, k, j);
          }
        }
        assert IsLeast(x, s);
      } else {
        assert IsLeast(k, s);
      }
    }
  }

  lemma {:induction false} HasGreatest(s: set<Key>)
    requires s != {}
    ensures exists k :: IsGreatest(k, s)
    decreases |s|
  {
    hide Less;
    var x :| x in s;
    if s == {x} {
      assert IsGreatest(x, s);
    } else {
      HasGreatest(s - {x});
      var k :| IsGreatest(k, s - {x});
      LessIsTotal(x, k);
      if Less(k, x) {
        forall j | j in s && j != x ensures Less(j, x) {
          if j != k {
            LessIsTransitive(j, k, x);
          }
        }
        assert IsGreatest(x, s);
      } else {
        assert IsGreatest(k, s);
      }
    }
  }

  // ---- ascending record lists

  predicate Ascending(rs: seq<Record>) {
    forall i, j :: 0 <= i < j < |rs| ==> Less(rs[i].key, rs[j].key)
  }

  /** The records read into a map, a later one winning. */
  function AsTree(rs: seq<Record>): Tree
    decreases |rs|
  {
    if rs == [] then map[] else AsTree(rs[..|rs| - 1])[rs[|rs| - 1].key := rs[|rs| - 1].value]
  }

  lemma AsTreeGrows(rs: seq<Record>, r: Record)
    ensures AsTree(rs + [r]) == AsTree(rs)[r.key := r.value]
  {
  }

  lemma {:induction false} AsTreeHasKeys(rs: seq<Record>, k: Key)
    ensures k in AsTree(rs) <==> exists i :: 0 <= i < |rs| && rs[i].key == k
    decreases |rs|
  {
    if rs != [] {
      AsTreeHasKeys(rs[..|rs| - 1], k);
      if k in AsTree(rs[..|rs| - 1]) {
        var i :| 0 <= i < |rs| - 1 && rs[..|rs| - 1][i].key == k;
        assert rs[i].key == k;
      }
      if i :| 0 <= i < |rs| && rs[i].key == k {
        if i < |rs| - 1 {
          assert rs[..|rs| - 1][i].key == k;
        }
      }
    }
  }

  /** An ascending list is determined by the map it holds. */
  lemma {:induction false} AscendingIsDetermined(a: seq<Record>, b: seq<Record>)
    requires Ascending(a) && Ascending(b)
    requires AsTree(a) == AsTree(b)
    ensures a == b
    decreases |a|
  {
    if a == [] {
      AsTreeHasKeys(b, if b == [] then [] else b[0].key);
    } else if b == [] {
      AsTreeHasKeys(a, a[0].key);
      assert false;
    } else {
      var m, n := |a| - 1, |b| - 1;
      LastIsGreatest(a);
      LastIsGreatest(b);
      assert a[m].key == b[n].key by {
        if a[m].key != b[n].key {
          LessIsAsymmetric(a[m].key, b[n].key);
        }
      }
      InitDropsLast(a);
      InitDropsLast(b);
      assert a[m].value == AsTree(a)[a[m].key] == b[n].value;
      AscendingIsDetermined(a[..m], b[..n]);
      assert a == a[..m] + [a[m]] && b == b[..n] + [b[n]];
    }
  }

  lemma LastIsGreatest(rs: seq<Record>)
    requires Ascending(rs) && rs != []
    ensures IsGreatest(rs[|rs| - 1].key, AsTree(rs).Keys)
  {
    hide Less, AsTree;
    forall k | k in AsTree(rs).Keys && k != rs[|rs| - 1].key ensures Less(k, rs[|rs| - 1].key) {
      AsTreeHasKeys(rs, k);
    }
    AsTreeHasKeys(rs, rs[|rs| - 1].key);
    assert rs[|rs| - 1].key in AsTree(rs);
  }

  lemma InitDropsLast(rs: seq<Record>)
    requires Ascending(rs) && rs != []
    ensures AsTree(rs[..|rs| - 1]) == AsTree(rs) - {rs[|rs| - 1].key}
  {
    LastIsNew(rs);
    UpdateThenRemove(AsTree(rs[..|rs| - 1]), rs[|rs| - 1].key, rs[|rs| - 1].value);
  }

  lemma LastIsNew(rs: seq<Record>)
    requires Ascending(rs) && rs != []
    ensures rs[|rs| - 1].key !in AsTree(rs[..|rs| - 1])
  {
    hide AsTree, Less;
    var init, last := rs[..|rs| - 1], rs[|rs| - 1];
    AsTreeHasKeys(init, last.key);
    LessIsIrreflexive(last.key);
    assert forall i :: 0 <= i < |init| ==> init[i] == rs[i];
  }

  lemma UpdateThenRemove(t: Tree, k: Key, v: Value)
    requires k !in t
    ensures t[k := v] - {k} == t
  {
  }

  /** A map's records in key order. */
  ghost function SortedRecords(t: Tree): (rs: seq<Record>)
    ensures Ascending(rs) && AsTree(rs) == t
    decreases |t|
  {
    if t == map[] then []
    else
      HasGreatest(t.Keys);
      var k :| IsGreatest(k, t.Keys);
      SortedStep(t, k, SortedRecords(t - {k}));
      SortedRecords(t - {k}) + [Record(k, t[k])]
  }

  lemma SortedStep(t: Tree, k: Key, init: seq<Record>)
    requires k in t && IsGreatest(k, t.Keys)
    requires Ascending(init) && AsTree(init) == t - {k}
    ensures Ascending(init + [Record(k, t[k])]) && AsTree(init + [Record(k, t[k])]) == t
  {
    hide AsTree, Less;
    AsTreeGrows(init, Record(k, t[k]));
    forall i | 0 <= i < |init| ensures init[i].key in t && init[i].key != k {
      AsTreeHasKeys(init, init[i].key);
    }
  }

  /** The in-order traversal of an ordered map. */
  method InKeyOrder(t: Tree) returns (rs: seq<Record>)
    ensures rs == SortedRecords(t)
    decreases |t|
  {
    hide Less, AsTree, SortedRecords;
    rs := [];
    if t != map[] {
      HasGreatest(t.Keys);
      var k :| IsGreatest(k, t.Keys);
      var init := InKeyOrder(t - {k});
      SortedStep(t, k, init);
      rs := init + [Record(k, t[k])];
    } else {
      NoRecords();
    }
    AscendingIsDetermined(rs, SortedRecords(t));
  }

  lemma NoRecords()
    ensures AsTree([]) == map[]
  {
  }

  /** The head of an ascending list is its least key, and the tail holds the rest. */
  lemma HeadAndTail(rs: seq<Record>)
    requires Ascending(rs) && rs != []
    ensures Ascending(rs[1..])
    ensures IsLeast(rs[0].key, AsTree(rs).Keys) && AsTree(rs)[rs[0].key] == rs[0].value
    ensures AsTree(rs[1..]) == AsTree(rs) - {rs[0].key}
  {
    hide AsTree, Less;
    TailDropsHead(rs);
    forall k | k in AsTree(rs).Keys && k != rs[0].key ensures Less(rs[0].key, k) {
      AsTreeHasKeys(rs, k);
    }
  }

  lemma {:induction false} TailDropsHead(rs: seq<Record>)
    requires Ascending(rs) && rs != []
    ensures rs[0].key in AsTree(rs) && AsTree(rs)[rs[0].key] == rs[0].value
    ensures AsTree(rs[1..]) == AsTree(rs) - {rs[0].key}
    decreases |rs|
  {
    hide Less;
    var init, last := rs[..|rs| - 1], rs[|rs| - 1];
    if init == [] {
      NoRecords();
      assert rs[1..] == [];
    } else {
      TailDropsHead(init);
      assert rs[1..] == init[1..] + [last];
      AsTreeGrows(init[1..], last);
      LessIsIrreflexive(last.key);
      UpdateElsewhere(AsTree(init), rs[0].key, last);
    }
  }

  lemma UpdateElsewhere(t: Tree, k: Key, r: Record)
    requires r.key != k
    ensures (t - {k})[r.key := r.value] == t[r.key := r.value] - {k}
  {
  }

  lemma {:induction false} AsTreeSplits(a: seq<Record>, b: seq<Record>)
    ensures AsTree(a + b) == AsTree(a) + AsTree(b)
    decreases |b|
  {
    if b == [] {
      assert a + b == a;
    } else {
      var init, last := b[..|b| - 1], b[|b| - 1];
      AsTreeSplits(a, init);
      assert a + b == (a + init) + [last];
      AsTreeGrows(a + init, last);
    }
  }
}
