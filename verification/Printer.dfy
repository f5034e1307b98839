/** The command line tool's PrintChirps, which rebuilds a thread's nesting from a flat list. */
module Printer {
  import opened Primitives
  import opened Records
  import opened Model
  import opened Threads
  import opened Runs

  datatype Printed = Printed(chirp: ClientChirp, padding: nat)

  // ---------- the loop ----------

  /** Pops until the top is the parent or nothing is left. */
  function PopTo(stack: seq<uint64>, parentId: uint64): seq<uint64> {
    if stack == [] || stack[|stack| - 1] == parentId then stack
    else PopTo(stack[..|stack| - 1], parentId)
  }

  function StackAfter(stack: seq<uint64>, chirps: seq<ClientChirp>): seq<uint64>
    decreases |chirps|
  {
    if chirps == [] then stack
    else StackAfter(PopTo(stack, chirps[0].parentId) + [chirps[0].id], chirps[1..])
  }

  function Paddings(stack: seq<uint64>, chirps: seq<ClientChirp>): (p: seq<nat>)
    ensures |p| == |chirps|
    decreases |chirps|
  {
    if chirps == [] then []
    else
      var popped := PopTo(stack, chirps[0].parentId);
      [|popped|] + Paddings(popped + [chirps[0].id], chirps[1..])
  }

  lemma {:induction false} PaddingsConcat(stack: seq<uint64>, a: seq<ClientChirp>, b: seq<ClientChirp>)
    ensures Paddings(stack, a + b) == Paddings(stack, a) + Paddings(StackAfter(stack, a), b)
    ensures StackAfter(stack, a + b) == StackAfter(StackAfter(stack, a), b)
    decreases |a|
  {
    if a == [] {
      assert a + b == b;
    } else {
      assert (a + b)[1..] == a[1..] + b;
      PaddingsConcat(PopTo(stack, a[0].parentId) + [a[0].id], a[1..], b);
    }
  }

  method PrintChirps(chirps: seq<ClientChirp>) returns (output: seq<Printed>)
    ensures |output| == |chirps|
    ensures forall i :: 0 <= i < |chirps| ==> output[i] == Printed(chirps[i], Paddings([], chirps)[i])
  {
    var dfs: seq<uint64> := [];
    output := [];
    for n := 0 to |chirps|
      invariant |output| == n
      invariant dfs == StackAfter([], chirps[..n])
      invariant forall i :: 0 <= i < n ==> output[i] == Printed(chirps[i], Paddings([], chirps[..n])[i])
    {
      var chirp := chirps[n];
      ghost var top := dfs;
      while dfs != [] && dfs[|dfs| - 1] != chirp.parentId
        invariant PopTo(dfs, chirp.parentId) == PopTo(top, chirp.parentId)
      {
        dfs := dfs[..|dfs| - 1];
      }
      output := output + [Printed(chirp, |dfs|)];
      if dfs == [] || dfs[|dfs| - 1] == chirp.parentId {
        dfs := dfs + [chirp.id];
      }
      PaddingsConcat([], chirps[..n], [chirp]);
      assert chirps[..n + 1] == chirps[..n] + [chirp];
      ghost var popped := PopTo(top, chirp.parentId);
      assert StackAfter(top, [chirp]) == StackAfter(popped + [chirp.id], [chirp][1..]);
      assert Paddings(top, [chirp]) == [|popped|] + Paddings(popped + [chirp.id], [chirp][1..]);
    }
    assert chirps[..|chirps|] == chirps;
  }

  // ---------- decoding a thread ----------

  function ClientViews(st: State, ids: seq<uint64>): (r: seq<ClientChirp>)
    requires forall x :: x in ids ==> x in st.chirps
    ensures |r| == |ids|
    ensures forall i :: 0 <= i < |ids| ==> r[i] == ClientView(st.chirps[ids[i]])
  {
    seq(|ids|, i requires 0 <= i < |ids| => ClientView(st.chirps[ids[i]]))
  }

  /** The stack holds the path to x at the bottom and only larger ids than x above it. */
  predicate Above(stack: seq<uint64>, path: seq<uint64>) {
    && path != [] && |path| <= |stack| && stack[..|path|] == path
    && forall j :: |path| <= j < |stack| ==> stack[j] > path[|path| - 1]
  }

  lemma {:induction false} PopToPath(stack: seq<uint64>, path: seq<uint64>)
    requires Above(stack, path)
    ensures PopTo(stack, path[|path| - 1]) == path
  {
    if |stack| > |path| {
      PopToPath(stack[..|stack| - 1], path);
    }
  }

  ghost predicate PaddingOk(st: State, root: uint64, x: uint64, padding: nat)
    requires Forest(st)
  {
    Reaches(st, root, x) && padding == Depth(st, root, x)
  }

  ghost predicate DecodesTo(st: State, root: uint64, ids: seq<uint64>, paddings: seq<nat>)
    requires Forest(st)
  {
    && |paddings| == |ids|
    && forall i :: 0 <= i < |ids| ==> PaddingOk(st, root, ids[i], paddings[i])
  }

  /** The stack from which the print loop meets x: empty for the requested chirp itself, otherwise
      holding the path to its parent. */
  ghost predicate Ready(st: State, root: uint64, x: uint64, stack: seq<uint64>)
    requires Forest(st) && Reaches(st, root, x)
  {
    if x == root then stack == [] else Above(stack, Path(st, root, st.chirps[x].parentId))
  }

  /** Two stretches of the list that decode rightly one after the other decode rightly together. */
  lemma {:induction false} DecodeConcat(
    st: State, root: uint64, stack: seq<uint64>, a: seq<uint64>, b: seq<uint64>)
    requires Forest(st)
    requires (forall y :: y in a ==> y in st.chirps) && (forall y :: y in b ==> y in st.chirps)
    requires DecodesTo(st, root, a, Paddings(stack, ClientViews(st, a)))
    requires DecodesTo(st, root, b, Paddings(StackAfter(stack, ClientViews(st, a)), ClientViews(st, b)))
    ensures DecodesTo(st, root, a + b, Paddings(stack, ClientViews(st, a + b)))
    ensures StackAfter(stack, ClientViews(st, a + b)) ==
            StackAfter(StackAfter(stack, ClientViews(st, a)), ClientViews(st, b))
  {
    ClientViewsConcat(st, a, b);
    PaddingsConcat(stack, ClientViews(st, a), ClientViews(st, b));
    DecodesToConcat(st, root, a, b, Paddings(stack, ClientViews(st, a)),
                    Paddings(StackAfter(stack, ClientViews(st, a)), ClientViews(st, b)));
  }

  lemma {:induction false} DecodesToConcat(
    st: State, root: uint64, a: seq<uint64>, b: seq<uint64>, p: seq<nat>, q: seq<nat>)
    requires Forest(st) && DecodesTo(st, root, a, p) && DecodesTo(st, root, b, q)
    ensures DecodesTo(st, root, a + b, p + q)
  {
  }

  lemma ClientViewsConcat(st: State, a: seq<uint64>, b: seq<uint64>)
    requires (forall y :: y in a ==> y in st.chirps) && (forall y :: y in b ==> y in st.chirps)
    ensures forall y :: y in a + b ==> y in st.chirps
    ensures ClientViews(st, a + b) == ClientViews(st, a) + ClientViews(st, b)
  {
  }

  lemma {:induction false} DecodeSubtree(st: State, root: uint64, x: uint64, stack: seq<uint64>)
    requires Forest(st) && Reaches(st, root, x) && Ready(st, root, x, stack)
    ensures DecodesTo(st, root, Preorder(st, x), Paddings(stack, ClientViews(st, Preorder(st, x))))
    ensures Above(StackAfter(stack, ClientViews(st, Preorder(st, x))), Path(st, root, x))
    decreases st.counter - x, 1, 0
  {
    var kids := Sorted(st.chirps[x].childrenIds);
    DecodeBelow(st, root, x, kids, Path(st, root, x));
    DecodeOneThenBelow(st, root, x, stack, PreorderAll(st, x, kids));
  }

  lemma {:induction false} DecodeOneThenBelow(
    st: State, root: uint64, x: uint64, stack: seq<uint64>, below: seq<uint64>)
    requires Forest(st) && Reaches(st, root, x) && Ready(st, root, x, stack)
    requires forall y :: y in below ==> y in st.chirps
    requires DecodesTo(st, root, below, Paddings(Path(st, root, x), ClientViews(st, below)))
    ensures DecodesTo(st, root, [x] + below, Paddings(stack, ClientViews(st, [x] + below)))
    ensures StackAfter(stack, ClientViews(st, [x] + below)) == StackAfter(Path(st, root, x), ClientViews(st, below))
  {
    OneView(st, x);
    DecodeOne(st, root, x, stack, ClientViews(st, [x]));
    DecodeConcat(st, root, stack, [x], below);
  }

  lemma OneView(st: State, x: uint64)
    requires IdsOk(st) && x in st.chirps
    ensures |ClientViews(st, [x])| == 1
    ensures ClientViews(st, [x])[0].id == x && ClientViews(st, [x])[0].parentId == st.chirps[x].parentId
  {
    ClientViewFields(st.chirps[x]);
  }

  lemma {:induction false} DecodeOne(
    st: State, root: uint64, x: uint64, stack: seq<uint64>, views: seq<ClientChirp>)
    requires Forest(st) && Reaches(st, root, x) && Ready(st, root, x, stack)
    requires |views| == 1 && views[0].id == x && views[0].parentId == st.chirps[x].parentId
    ensures DecodesTo(st, root, [x], Paddings(stack, views))
    ensures StackAfter(stack, views) == Path(st, root, x)
  {
    PaddingsOne(stack, views);
    PopToParent(st, root, x, stack);
    DecodesToOne(st, root, x, |PopTo(stack, views[0].parentId)|);
  }

  lemma {:induction false} DecodesToOne(st: State, root: uint64, x: uint64, padding: nat)
    requires Forest(st) && Reaches(st, root, x) && padding + 1 == |Path(st, root, x)|
    ensures DecodesTo(st, root, [x], [padding])
  {
  }

  lemma {:induction false} PaddingsOne(stack: seq<uint64>, views: seq<ClientChirp>)
    requires |views| == 1
    ensures Paddings(stack, views) == [|PopTo(stack, views[0].parentId)|]
    ensures StackAfter(stack, views) == PopTo(stack, views[0].parentId) + [views[0].id]
  {
    var popped := PopTo(stack, views[0].parentId);
    assert views[1..] == [];
    assert Paddings(stack, views) == [|popped|] + Paddings(popped + [views[0].id], []);
    assert StackAfter(stack, views) == StackAfter(popped + [views[0].id], []);
  }

  lemma {:induction false} PopToParent(st: State, root: uint64, x: uint64, stack: seq<uint64>)
    requires Forest(st) && Reaches(st, root, x) && Ready(st, root, x, stack)
    ensures PopTo(stack, st.chirps[x].parentId) + [x] == Path(st, root, x)
  {
    if x != root {
      PopToPath(stack, Path(st, root, st.chirps[x].parentId));
    }
  }

  lemma {:induction false} DecodeBelow(
    st: State, root: uint64, x: uint64, kids: seq<uint64>, stack: seq<uint64>)
    requires Forest(st) && Reaches(st, root, x)
    requires forall k :: k in kids ==> k in st.chirps[x].childrenIds
    requires Above(stack, Path(st, root, x))
    ensures DecodesTo(st, root, PreorderAll(st, x, kids), Paddings(stack, ClientViews(st, PreorderAll(st, x, kids))))
    ensures Above(StackAfter(stack, ClientViews(st, PreorderAll(st, x, kids))), Path(st, root, x))
    decreases st.counter - x, 0, |kids|
  {
    if kids != [] {
      var k := kids[0];
      ReachesAbove(st, root, x);
      assert k in st.chirps && st.chirps[k].parentId == x;
      DecodeSubtree(st, root, k, stack);
      var next := StackAfter(stack, ClientViews(st, Preorder(st, k)));
      AboveParent(next, Path(st, root, x), k);
      DecodeBelow(st, root, x, kids[1..], next);
      DecodeConcat(st, root, stack, Preorder(st, k), PreorderAll(st, x, kids[1..]));
    }
  }

  lemma {:induction false} ReachesAbove(st: State, root: uint64, x: uint64)
    requires Forest(st) && Reaches(st, root, x)
    ensures root <= x
    decreases x
  {
    if x != root {
      ReachesAbove(st, root, st.chirps[x].parentId);
    }
  }

  lemma AboveParent(stack: seq<uint64>, path: seq<uint64>, k: uint64)
    requires path != [] && path[|path| - 1] < k && Above(stack, path + [k])
    ensures Above(stack, path)
  {
    var longer := path + [k];
    assert stack[..|path|] == stack[..|longer|][..|path|] == path;
    assert stack[|path|] == longer[|path|];
  }

  /** For every reachable state and every live chirp: printing its thread indents each chirp by its
      exact depth below the requested one, although the printer sees only ids and parent ids. */
  lemma PrintedThreadHasDepths(st: State, root: uint64)
    requires Inv(st) && root in st.chirps
    ensures DecodesTo(st, root, Preorder(st, root), Paddings([], ClientViews(st, Preorder(st, root))))
  {
    DecodeSubtree(st, root, root, []);
  }

  /** The indentation alone shows the tree: the parent of a listed reply is the nearest chirp above it
      that is indented by one less, and everything in between is indented at least as far. */
  lemma PaddingsShowParent(st: State, root: uint64, i: nat) returns (j: nat)
    requires Inv(st) && root in st.chirps && 0 < i < |Preorder(st, root)|
    ensures var ids := Preorder(st, root);
            var paddings := Paddings([], ClientViews(st, ids));
            && j < i && ids[j] == st.chirps[ids[i]].parentId
            && paddings[j] + 1 == paddings[i]
            && forall k :: j < k < i ==> paddings[k] >= paddings[i]
  {
    var ids := Preorder(st, root);
    j := NearestAbove(st, root, i);
    PrintedThreadHasDepths(st, root);
    assert forall k :: 0 <= k < |ids| ==> PaddingOk(st, root, ids[k], Paddings([], ClientViews(st, ids))[k]);
  }

  lemma NearestAbove(st: State, root: uint64, i: nat) returns (j: nat)
    requires Inv(st) && root in st.chirps && 0 < i < |Preorder(st, root)|
    ensures var ids := Preorder(st, root);
            && (forall k :: 0 <= k < |ids| ==> Reaches(st, root, ids[k]))
            && j < i && ids[j] == st.chirps[ids[i]].parentId
            && Depth(st, root, ids[j]) + 1 == Depth(st, root, ids[i])
            && forall k :: j < k < i ==> Depth(st, root, ids[k]) >= Depth(st, root, ids[i])
  {
    var ids := Preorder(st, root);
    ThreadExact(st, root);
    NotRootAgain(st, root, i);
    var p := st.chirps[ids[i]].parentId;
    assert p in ids;
    j :| 0 <= j < |ids| && ids[j] == p;
    ThreadOrder(st, root, j, i);
    forall k | j < k < i
      ensures Depth(st, root, ids[k]) >= Depth(st, root, ids[i])
    {
      BetweenIsLonger(Path(st, root, p), ids[i], Path(st, root, ids[k]));
    }
  }

  /** What the client parses is the view of the stored chirps. */
  lemma GrpcToClientViews(st: State, ids: seq<uint64>)
    requires forall x :: x in ids ==> x in st.chirps
    ensures forall i :: 0 <= i < |ids| ==> GrpcChirpToClientChirp(GrpcViews(st, ids)[i]) == ClientViews(st, ids)[i]
  {
  }

  /** What the client sees of a chirp: all of it but the children set. */
  predicate Shows(view: ClientChirp, c: Chirp) {
    view == ClientChirp(c.username, c.text, c.id, c.parentId, c.time)
  }

  lemma ClientViewsShow(st: State, ids: seq<uint64>)
    requires forall x :: x in ids ==> x in st.chirps
    ensures forall i :: 0 <= i < |ids| ==> Shows(ClientViews(st, ids)[i], st.chirps[ids[i]])
  {
    forall i | 0 <= i < |ids|
      ensures Shows(ClientViews(st, ids)[i], st.chirps[ids[i]])
    {
      ClientViewFields(st.chirps[ids[i]]);
    }
  }

  /** Reading a live chirp answers OK, the client sees every chirp of the thread as it is, and printing
      indents each by its exact depth. */
  ghost predicate PrintsRightly(st: State, root: uint64)
    requires Inv(st) && st.counter < UINT64_LIMIT - 1 && root in st.chirps
  {
    var ids := Preorder(st, root);
    && ReplyOf(st, Read(root)) == Reply.Thread(OK, GrpcViews(st, ids))
    && (forall i :: 0 <= i < |ids| ==> GrpcChirpToClientChirp(GrpcViews(st, ids)[i]) == ClientViews(st, ids)[i])
    && (forall i :: 0 <= i < |ids| ==> Shows(ClientViews(st, ids)[i], st.chirps[ids[i]]))
    && (forall x :: x in ids <==> Reaches(st, root, x))
    && DecodesTo(st, root, ids, Paddings([], ClientViews(st, ids)))
  }

  lemma ReadReply(st: State, root: uint64)
    requires Inv(st) && st.counter < UINT64_LIMIT - 1 && root in st.chirps
    ensures ReplyOf(st, Read(root)) == Reply.Thread(OK, GrpcViews(st, Preorder(st, root)))
  {
  }

  /** After any run from the empty store, that holds of every live chirp. */
  lemma ReadThenPrint(ops: seq<Op>, root: uint64)
    requires |ops| < UINT64_LIMIT - 1
    ensures Room(INITIAL, |ops|)
    ensures root in Run(INITIAL, ops).chirps ==> PrintsRightly(Run(INITIAL, ops), root)
  {
    InitialInv();
    var st := Run(INITIAL, ops);
    if root in st.chirps {
      ReadReply(st, root);
      ThreadExact(st, root);
      PrintedThreadHasDepths(st, root);
      GrpcToClientViews(st, Preorder(st, root));
      ClientViewsShow(st, Preorder(st, root));
    }
  }
}
