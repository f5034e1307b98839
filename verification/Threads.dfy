/** Reading a thread: the preorder that DfsScanChirps emits, and which list that is. */
module Threads {
  import opened Primitives
  import opened Model

  // ---------- std::set iteration ----------

  lemma {:induction false} MinExists(s: set<uint64>) returns (m: uint64)
    requires s != {}
    ensures m in s && forall x :: x in s ==> m <= x
    decreases s
  {
    m :| m in s;
    if y :| y in s && y < m {
      assert y in s - {m};
      var least := MinExists(s - {m});
      assert forall x :: x in s ==> x == m || x in s - {m};
      m := least;
    }
  }

  ghost function Min(s: set<uint64>): (m: uint64)
    requires s != {}
    ensures m in s && forall x :: x in s ==> m <= x
  {
    assert exists m :: m in s && forall x :: x in s ==> m <= x by {
      var m := MinExists(s);
    }
    var m :| m in s && forall x :: x in s ==> m <= x;
    m
  }

  /** A set in the order in which std::set iterates over it. */
  ghost function Sorted(s: set<uint64>): (r: seq<uint64>)
    ensures forall x :: x in r <==> x in s
    ensures forall i, j :: 0 <= i < j < |r| ==> r[i] < r[j]
    decreases |s|
  {
    if s == {} then [] else [Min(s)] + Sorted(s - {Min(s)})
  }

  // ---------- the thread under a chirp ----------

  ghost predicate Forest(st: State) {
    IdsOk(st) && RepliesOk(st.chirps)
  }

  /** The ids that DfsScanChirps visits, in order; children have larger ids, so it ends. */
  ghost function Preorder(st: State, id: uint64): (ids: seq<uint64>)
    requires Forest(st) && id in st.chirps
    ensures forall x :: x in ids ==> x in st.chirps
    decreases st.counter - id, 1, 0
  {
    [id] + PreorderAll(st, id, Sorted(st.chirps[id].childrenIds))
  }

  ghost function PreorderAll(st: State, id: uint64, kids: seq<uint64>): (ids: seq<uint64>)
    requires Forest(st) && id in st.chirps
    requires forall k :: k in kids ==> k in st.chirps[id].childrenIds
    ensures forall x :: x in ids ==> x in st.chirps
    decreases st.counter - id, 0, |kids|
  {
    if kids == [] then [] else Preorder(st, kids[0]) + PreorderAll(st, id, kids[1..])
  }

  /** x is live and following parent ids through live chirps leads from x to root. */
  ghost predicate Reaches(st: State, root: uint64, x: uint64)
    requires Forest(st)
    decreases x
  {
    x in st.chirps && (x == root || Reaches(st, root, st.chirps[x].parentId))
  }

  /** The chirps on the way from root to x, both included. */
  ghost function Path(st: State, root: uint64, x: uint64): (p: seq<uint64>)
    requires Forest(st) && Reaches(st, root, x)
    ensures |p| >= 1 && p[0] == root && p[|p| - 1] == x
    ensures forall i :: 0 <= i < |p| - 1 ==> p[i] < x
    decreases x
  {
    if x == root then [x] else Path(st, root, st.chirps[x].parentId) + [x]
  }

  ghost function Depth(st: State, root: uint64, x: uint64): nat
    requires Forest(st) && Reaches(st, root, x)
  {
    |Path(st, root, x)| - 1
  }

  /** The depth below the root counts the steps from parent to reply. */
  lemma DepthCountsSteps(st: State, root: uint64, x: uint64)
    requires Forest(st) && Reaches(st, root, x) && root in st.chirps
    ensures Depth(st, root, root) == 0
    ensures x != root ==> Depth(st, root, x) == Depth(st, root, st.chirps[x].parentId) + 1
  {
  }

  lemma {:induction false} ReachesThroughChild(st: State, root: uint64, k: uint64, x: uint64)
    requires Forest(st) && root in st.chirps
    requires k in st.chirps[root].childrenIds && Reaches(st, k, x)
    ensures Reaches(st, root, x) && x > root
    ensures Path(st, root, x) == [root] + Path(st, k, x)
    decreases x
  {
    if x == k {
      assert Path(st, root, st.chirps[x].parentId) == [root];
    } else {
      ReachesThroughChild(st, root, k, st.chirps[x].parentId);
    }
  }

  // ---------- which chirps a thread lists ----------

  lemma {:induction false} PreorderReaches(st: State, id: uint64, x: uint64)
    requires Forest(st) && id in st.chirps && x in Preorder(st, id)
    ensures Reaches(st, id, x)
    decreases st.counter - id, 1, 0
  {
    if x != id {
      var _ := PreorderAllReaches(st, id, Sorted(st.chirps[id].childrenIds), x);
    }
  }

  lemma {:induction false} PreorderAllReaches(st: State, id: uint64, kids: seq<uint64>, x: uint64) returns (k: uint64)
    requires Forest(st) && id in st.chirps
    requires forall c :: c in kids ==> c in st.chirps[id].childrenIds
    requires x in PreorderAll(st, id, kids)
    ensures k in kids && Reaches(st, k, x)
    ensures Reaches(st, id, x) && x != id
    decreases st.counter - id, 0, |kids|
  {
    if x in Preorder(st, kids[0]) {
      k := kids[0];
      PreorderReaches(st, k, x);
      ReachesThroughChild(st, id, k, x);
    } else {
      k := PreorderAllReaches(st, id, kids[1..], x);
    }
  }

  lemma {:induction false} PreorderHasReplies(st: State, id: uint64, p: uint64, x: uint64)
    requires Forest(st) && id in st.chirps && p in Preorder(st, id)
    requires p in st.chirps && x in st.chirps[p].childrenIds
    ensures x in Preorder(st, id)
    decreases st.counter - id, 1, 0
  {
    var kids := Sorted(st.chirps[id].childrenIds);
    if p == id {
      PreorderAllHasRoots(st, id, kids, x);
    } else {
      PreorderAllHasReplies(st, id, kids, p, x);
    }
  }

  lemma {:induction false} PreorderAllHasRoots(st: State, id: uint64, kids: seq<uint64>, k: uint64)
    requires Forest(st) && id in st.chirps
    requires forall c :: c in kids ==> c in st.chirps[id].childrenIds
    requires k in kids
    ensures k in PreorderAll(st, id, kids)
  {
    if k != kids[0] {
      PreorderAllHasRoots(st, id, kids[1..], k);
    } else {
      assert Preorder(st, k)[0] == k;
    }
  }

  lemma {:induction false} PreorderAllHasReplies(st: State, id: uint64, kids: seq<uint64>, p: uint64, x: uint64)
    requires Forest(st) && id in st.chirps
    requires forall c :: c in kids ==> c in st.chirps[id].childrenIds
    requires p in PreorderAll(st, id, kids) && p in st.chirps && x in st.chirps[p].childrenIds
    ensures x in PreorderAll(st, id, kids)
    decreases st.counter - id, 0, |kids|
  {
    if p in Preorder(st, kids[0]) {
      PreorderHasReplies(st, kids[0], p, x);
    } else {
      PreorderAllHasReplies(st, id, kids[1..], p, x);
    }
  }

  lemma {:induction false} ReachesPreorder(st: State, id: uint64, x: uint64)
    requires Forest(st) && Reaches(st, id, x) && id in st.chirps
    ensures x in Preorder(st, id)
    decreases x
  {
    if x != id {
      var p := st.chirps[x].parentId;
      ReachesPreorder(st, id, p);
      PreorderHasReplies(st, id, p, x);
    }
  }

  // ---------- in which order ----------

  /** Lexicographic order; a proper prefix comes first. */
  predicate LexLess(a: seq<uint64>, b: seq<uint64>) {
    b != [] && (a == [] || a[0] < b[0] || (a[0] == b[0] && LexLess(a[1..], b[1..])))
  }

  ghost predicate SortedByPath(st: State, root: uint64, ids: seq<uint64>)
    requires Forest(st)
  {
    && (forall x :: x in ids ==> Reaches(st, root, x))
    && forall i, j :: 0 <= i < j < |ids| ==> LexLess(Path(st, root, ids[i]), Path(st, root, ids[j]))
  }

  lemma LexLessBelowRoot(root: uint64, a: seq<uint64>, b: seq<uint64>)
    ensures LexLess([root] + a, [root] + b) == LexLess(a, b)
  {
    assert ([root] + a)[1..] == a && ([root] + b)[1..] == b;
  }

  lemma {:induction false} PreorderSorted(st: State, id: uint64)
    requires Forest(st) && id in st.chirps
    ensures SortedByPath(st, id, Preorder(st, id))
    decreases st.counter - id, 1, 0
  {
    var kids := Sorted(st.chirps[id].childrenIds);
    PreorderAllSorted(st, id, kids);
    forall x | x in PreorderAll(st, id, kids)
      ensures Reaches(st, id, x) && LexLess(Path(st, id, id), Path(st, id, x))
    {
      RootIsLeast(st, id, kids, x);
    }
    SortedBelowRoot(st, id, PreorderAll(st, id, kids));
  }

  lemma {:induction false} RootIsLeast(st: State, id: uint64, kids: seq<uint64>, x: uint64)
    requires Forest(st) && id in st.chirps
    requires forall c :: c in kids ==> c in st.chirps[id].childrenIds
    requires x in PreorderAll(st, id, kids)
    ensures Reaches(st, id, x) && LexLess(Path(st, id, id), Path(st, id, x))
  {
    var k := PreorderAllReaches(st, id, kids, x);
    ReachesThroughChild(st, id, k, x);
    LexLessBelowRoot(id, [], Path(st, k, x));
    assert Path(st, id, id) == [id] + [];
  }

  lemma {:induction false} SortedBelowRoot(st: State, id: uint64, below: seq<uint64>)
    requires Forest(st) && id in st.chirps && SortedByPath(st, id, below)
    requires forall x :: x in below ==> Reaches(st, id, x) && LexLess(Path(st, id, id), Path(st, id, x))
    ensures SortedByPath(st, id, [id] + below)
  {
    var ids := [id] + below;
    forall i, j | 0 <= i < j < |ids|
      ensures LexLess(Path(st, id, ids[i]), Path(st, id, ids[j]))
    {
      assert ids[j] == below[j - 1];
      if i > 0 {
        assert ids[i] == below[i - 1];
      }
    }
  }

  lemma {:induction false} PreorderAllSorted(st: State, id: uint64, kids: seq<uint64>)
    requires Forest(st) && id in st.chirps
    requires forall c :: c in kids ==> c in st.chirps[id].childrenIds
    requires forall i, j :: 0 <= i < j < |kids| ==> kids[i] < kids[j]
    ensures SortedByPath(st, id, PreorderAll(st, id, kids))
    decreases st.counter - id, 0, |kids|
  {
    if kids != [] {
      var first, rest := Preorder(st, kids[0]), PreorderAll(st, id, kids[1..]);
      PreorderSorted(st, kids[0]);
      SortedOneLevelUp(st, id, kids[0], first);
      PreorderAllSorted(st, id, kids[1..]);
      forall x, y | x in first && y in rest
        ensures Reaches(st, id, x) && Reaches(st, id, y)
        ensures LexLess(Path(st, id, x), Path(st, id, y))
      {
        EarlierSubtreeFirst(st, id, kids, x, y);
      }
    }
  }

  lemma SortedOneLevelUp(st: State, id: uint64, k: uint64, ids: seq<uint64>)
    requires Forest(st) && id in st.chirps && k in st.chirps[id].childrenIds
    requires SortedByPath(st, k, ids)
    ensures SortedByPath(st, id, ids)
  {
    forall x | x in ids
      ensures Reaches(st, id, x) && Path(st, id, x) == [id] + Path(st, k, x)
    {
      ReachesThroughChild(st, id, k, x);
    }
    forall i, j | 0 <= i < j < |ids|
      ensures LexLess(Path(st, id, ids[i]), Path(st, id, ids[j]))
    {
      LexLessBelowRoot(id, Path(st, k, ids[i]), Path(st, k, ids[j]));
    }
  }

  lemma EarlierSubtreeFirst(st: State, id: uint64, kids: seq<uint64>, x: uint64, y: uint64)
    requires Forest(st) && id in st.chirps && kids != []
    requires forall c :: c in kids ==> c in st.chirps[id].childrenIds
    requires forall i, j :: 0 <= i < j < |kids| ==> kids[i] < kids[j]
    requires x in Preorder(st, kids[0]) && y in PreorderAll(st, id, kids[1..])
    ensures Reaches(st, id, x) && Reaches(st, id, y)
    ensures LexLess(Path(st, id, x), Path(st, id, y))
  {
    PreorderReaches(st, kids[0], x);
    var k := PreorderAllReaches(st, id, kids[1..], y);
    ReachesThroughChild(st, id, kids[0], x);
    ReachesThroughChild(st, id, k, y);
    assert kids[0] < k;
    FirstDecides(id, Path(st, kids[0], x), Path(st, k, y));
  }

  lemma FirstDecides(root: uint64, a: seq<uint64>, b: seq<uint64>)
    requires a != [] && b != [] && a[0] < b[0]
    ensures LexLess([root] + a, [root] + b)
  {
    LexLessBelowRoot(root, a, b);
  }

  /** Reading a live chirp lists exactly the live chirps whose parent chain through live chirps
      reaches it, sorted by their path from it. */
  lemma {:induction false} ThreadExact(st: State, root: uint64)
    requires Inv(st) && root in st.chirps
    ensures forall x :: x in Preorder(st, root) <==> Reaches(st, root, x)
    ensures SortedByPath(st, root, Preorder(st, root))
  {
    forall x
      ensures x in Preorder(st, root) <==> Reaches(st, root, x)
    {
      if x in Preorder(st, root) {
        PreorderReaches(st, root, x);
      }
      if Reaches(st, root, x) {
        ReachesPreorder(st, root, x);
      }
    }
    PreorderSorted(st, root);
  }

  // ---------- what being sorted by path amounts to ----------

  lemma {:induction false} LexLessAsymmetric(a: seq<uint64>, b: seq<uint64>)
    requires LexLess(a, b)
    ensures !LexLess(b, a) && a != b
  {
    if a != [] && a[0] == b[0] {
      LexLessAsymmetric(a[1..], b[1..]);
    }
  }

  lemma {:induction false} PrefixLexLess(p: seq<uint64>, a: seq<uint64>, b: seq<uint64>)
    ensures LexLess(p + a, p + b) == LexLess(a, b)
  {
    if p == [] {
      assert p + a == a && p + b == b;
    } else {
      PrefixLexLess(p[1..], a, b);
      assert (p + a)[1..] == p[1..] + a && (p + b)[1..] == p[1..] + b;
    }
  }

  /** Each chirp is listed once, after its parent, and siblings come in ascending id order. */
  lemma ThreadOrder(st: State, root: uint64, i: nat, j: nat)
    requires Inv(st) && root in st.chirps
    requires i < |Preorder(st, root)| && j < |Preorder(st, root)|
    ensures var ids := Preorder(st, root);
            && ids[0] == root && ids[i] in st.chirps && ids[j] in st.chirps
            && (i != j ==> ids[i] != ids[j])
            && (j > 0 && ids[i] == st.chirps[ids[j]].parentId ==> i < j)
            && (0 < i && 0 < j && st.chirps[ids[i]].parentId == st.chirps[ids[j]].parentId && ids[i] < ids[j] ==> i < j)
  {
    var ids := Preorder(st, root);
    ThreadExact(st, root);
    if i < j {
      LexLessAsymmetric(Path(st, root, ids[i]), Path(st, root, ids[j]));
    } else if j < i {
      var a, b := Path(st, root, ids[j]), Path(st, root, ids[i]);
      LexLessAsymmetric(a, b);
      if j > 0 {
        var p := st.chirps[ids[j]].parentId;
        NotRootAgain(st, root, j);
        var top := Path(st, root, p);
        assert a == top + [ids[j]];
        if ids[i] == p {
          assert b == top + [];
          PrefixLexLess(top, [ids[j]], []);
        } else if st.chirps[ids[i]].parentId == p && ids[i] < ids[j] {
          NotRootAgain(st, root, i);
          assert b == top + [ids[i]];
          PrefixLexLess(top, [ids[j]], [ids[i]]);
        }
      }
    }
  }

  lemma NotRootAgain(st: State, root: uint64, j: nat)
    requires Inv(st) && root in st.chirps && 0 < j < |Preorder(st, root)|
    ensures Preorder(st, root)[j] != root
  {
    ThreadExact(st, root);
    LexLessAsymmetric(Path(st, root, Preorder(st, root)[0]), Path(st, root, Preorder(st, root)[j]));
  }

  /** Being sorted by path and having these members leaves only one list. */
  lemma {:induction false} SortedByPathUnique(st: State, root: uint64, a: seq<uint64>, b: seq<uint64>)
    requires Forest(st) && SortedByPath(st, root, a) && SortedByPath(st, root, b)
    requires forall x :: x in a <==> x in b
    ensures a == b
  {
    assert (a != [] ==> a[0] in a) && (b != [] ==> b[0] in b);
    if a != [] && b != [] {
      FirstIsLeast(st, root, a, b);
      FirstNotAgain(st, root, a);
      FirstNotAgain(st, root, b);
      assert a == [a[0]] + a[1..] && b == [b[0]] + b[1..];
      assert forall x :: x in a[1..] <==> x in a && x != a[0];
      assert forall x :: x in b[1..] <==> x in b && x != b[0];
      SortedByPathUnique(st, root, a[1..], b[1..]);
    }
  }

  lemma FirstNotAgain(st: State, root: uint64, a: seq<uint64>)
    requires Forest(st) && SortedByPath(st, root, a) && a != []
    ensures a[0] !in a[1..]
  {
    if i :| 1 <= i < |a| && a[i] == a[0] {
      LexLessAsymmetric(Path(st, root, a[0]), Path(st, root, a[i]));
    }
  }

  lemma FirstIsLeast(st: State, root: uint64, a: seq<uint64>, b: seq<uint64>)
    requires Forest(st) && SortedByPath(st, root, a) && SortedByPath(st, root, b)
    requires a != [] && b != []
    requires forall x :: x in a <==> x in b
    ensures a[0] == b[0]
  {
    assert a[0] in b && b[0] in a;
    var i :| 0 <= i < |b| && b[i] == a[0];
    var j :| 0 <= j < |a| && a[j] == b[0];
    if i > 0 && j > 0 {
      LexLessAsymmetric(Path(st, root, b[0]), Path(st, root, a[0]));
    }
  }

  /** What lies between a path and its extension by one step extends that path. */
  lemma {:induction false} BetweenIsLonger(p: seq<uint64>, x: uint64, k: seq<uint64>)
    requires LexLess(p, k) && LexLess(k, p + [x])
    ensures |k| > |p|
  {
    if p != [] {
      assert (p + [x])[1..] == p[1..] + [x];
      BetweenIsLonger(p[1..], x, k[1..]);
    }
  }
}
