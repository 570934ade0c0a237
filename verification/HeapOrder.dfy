/** The order of the index heap of batch verification: `h` holds indices into the values `v`. */
module HeapOrder {

  /** The first `n` entries of `h` are the indices below `n`, each once. */
  ghost predicate Indices(h: seq<nat>, n: nat) {
    && n <= |h|
    && (forall i :: 0 <= i < n ==> h[i] < n)
    && (forall i, j :: 0 <= i < j < n ==> h[i] != h[j])
    && (forall k :: 0 <= k < n ==> Occurs(h, n, k))
  }

  ghost predicate Occurs(h: seq<nat>, n: nat, k: nat) {
    n <= |h| && k in h[..n]
  }

  function Up(i: nat): nat {
    if i == 0 then 0 else (i - 1) / 2
  }

  ghost predicate Reads(h: seq<nat>, v: seq<int>, n: nat) {
    n <= |h| && forall i :: 0 <= i < n ==> h[i] < |v|
  }

  /** The value at `i` is at most the value at `p`. */
  ghost predicate Under(h: seq<nat>, v: seq<int>, i: nat, p: nat) {
    i < |h| && p < |h| && h[i] < |v| && h[p] < |v| && v[h[i]] <= v[h[p]]
  }

  /** Every entry is at most its parent. */
  ghost predicate Ordered(h: seq<nat>, v: seq<int>, n: nat) {
    Reads(h, v, n) && forall i :: 1 <= i < n ==> Under(h, v, i, Up(i))
  }

  /** Ordered except that `node` may be above its parent. */
  ghost predicate Rising(h: seq<nat>, v: seq<int>, n: nat, node: nat) {
    && Reads(h, v, n) && node < n
    && (forall i :: 1 <= i < n && i != node ==> Under(h, v, i, Up(i)))
    && (node > 0 ==> forall i :: 1 <= i < n && Up(i) == node ==> Under(h, v, i, Up(node)))
  }

  /** Ordered except around `node`, which holds a value in transit. */
  ghost predicate Sinking(h: seq<nat>, v: seq<int>, n: nat, node: nat) {
    && Reads(h, v, n) && node < n
    && (forall i :: 1 <= i < n && i != node && Up(i) != node ==> Under(h, v, i, Up(i)))
    && (node > 0 ==> forall i :: 1 <= i < n && Up(i) == node ==> Under(h, v, i, Up(node)))
  }

  function Swap(h: seq<nat>, a: nat, b: nat): (r: seq<nat>)
    requires a < |h| && b < |h|
    ensures |r| == |h|
  {
    h[a := h[b]][b := h[a]]
  }

  lemma SwapIndices(h: seq<nat>, n: nat, a: nat, b: nat)
    requires Indices(h, n) && a < n && b < n
    ensures Indices(Swap(h, a, b), n)
  {
    var r := Swap(h, a, b);
    forall k | 0 <= k < n ensures Occurs(r, n, k) {
      assert Occurs(h, n, k);
      var i :| 0 <= i < n && h[i] == k;
      var j := if i == a then b else if i == b then a else i;
      assert r[..n][j] == k;
    }
  }

  lemma RisingStep(h: seq<nat>, v: seq<int>, n: nat, node: nat)
    requires Rising(h, v, n, node) && node > 0 && Under(h, v, Up(node), node)
    ensures Rising(Swap(h, Up(node), node), v, n, Up(node))
  {
    var p := Up(node);
    var r := Swap(h, p, node);
    forall i | 1 <= i < n && i != p ensures Under(r, v, i, Up(i)) {
      if i != node {
        assert Under(h, v, i, Up(i));
      }
    }
    if p > 0 {
      assert Under(h, v, p, Up(p));
      forall i | 1 <= i < n && Up(i) == p ensures Under(r, v, i, Up(p)) {
        if i != node {
          assert Under(h, v, i, p);
        }
      }
    }
  }

  lemma RisingDone(h: seq<nat>, v: seq<int>, n: nat, node: nat)
    requires Rising(h, v, n, node) && (node == 0 || Under(h, v, node, Up(node)))
    ensures Ordered(h, v, n)
  {}

  /** Moving the larger child up past the value in transit. */
  lemma SinkingStep(h: seq<nat>, v: seq<int>, n: nat, p: nat, node: nat)
    requires Sinking(h, v, n, p) && 2 * p + 2 < n && (node == 2 * p + 1 || node == 2 * p + 2)
    requires Under(h, v, 2 * p + 1, node) && Under(h, v, 2 * p + 2, node)
    ensures Sinking(Swap(h, p, node), v, n, node)
  {
    var r := Swap(h, p, node);
    assert Up(node) == p;
    forall i | 1 <= i < n && i != node && Up(i) != node ensures Under(r, v, i, Up(i)) {
      if i == p {
        assert Under(h, v, node, Up(p));
      } else if Up(i) == p {
        assert i == 2 * p + 1 || i == 2 * p + 2;
      } else {
        assert Under(h, v, i, Up(i));
      }
    }
    forall i | 1 <= i < n && Up(i) == node ensures Under(r, v, i, p) {
      assert Under(h, v, i, Up(i));
    }
  }

  /** At a leaf a value in transit is only a rising value. */
  lemma SunkToLeaf(h: seq<nat>, v: seq<int>, n: nat, node: nat)
    requires Sinking(h, v, n, node) && 2 * node + 1 >= n
    ensures Rising(h, v, n, node)
  {}

  /** An order broken only by a changed root. */
  lemma {:induction false} RootChanged(h: seq<nat>, v: seq<int>, w: seq<int>, n: nat)
    requires Ordered(h, v, n) && Indices(h, n) && n > 0 && |w| == |v|
    requires forall k :: 0 <= k < |v| && k != h[0] ==> w[k] == v[k]
    ensures Sinking(h, w, n, 0)
  {
    forall i | 1 <= i < n && Up(i) != 0 ensures Under(h, w, i, Up(i)) {
      assert Under(h, v, i, Up(i));
    }
  }

  lemma {:induction false} RootIsMax(h: seq<nat>, v: seq<int>, n: nat, i: nat)
    requires Ordered(h, v, n) && i < n
    ensures v[h[i]] <= v[h[0]]
  {
    if i > 0 {
      assert Under(h, v, i, Up(i));
      RootIsMax(h, v, n, Up(i));
    }
  }

  lemma {:induction false} ChildrenAreNext(h: seq<nat>, v: seq<int>, n: nat, i: nat)
    requires Ordered(h, v, n) && n >= 3 && 1 <= i < n
    ensures v[h[i]] <= v[h[1]] || v[h[i]] <= v[h[2]]
  {
    if i > 2 {
      assert Under(h, v, i, Up(i));
      ChildrenAreNext(h, v, n, Up(i));
    }
  }

  /** The root holds the largest value, the larger of its children the largest of the others. */
  lemma TopTwo(h: seq<nat>, v: seq<int>, n: nat, m1: nat, m2: nat)
    requires Ordered(h, v, n) && Indices(h, n) && 3 <= n <= |v|
    requires m1 == h[0] && m2 == (if v[h[1]] < v[h[2]] then h[2] else h[1])
    ensures m1 < n && m2 < n && m1 != m2
    ensures forall k :: 0 <= k < n ==> v[k] <= v[m1]
    ensures forall k :: 0 <= k < n && k != m1 ==> v[k] <= v[m2]
  {
    forall k | 0 <= k < n ensures v[k] <= v[m1] && (k != m1 ==> v[k] <= v[m2]) {
      assert Occurs(h, n, k);
      var i :| 0 <= i < n && h[i] == k;
      RootIsMax(h, v, n, i);
      if i > 0 {
        ChildrenAreNext(h, v, n, i);
      }
    }
  }

  /** One more index at the end, with the order still to be restored there. */
  lemma Appended(h: seq<nat>, v: seq<int>, n: nat, r: seq<nat>)
    requires Ordered(h, v, n) && Indices(h, n) && n < |h| && n < |v| && r == h[n := n]
    ensures Rising(r, v, n + 1, n) && Indices(r, n + 1)
  {
    var m := n + 1;
    forall k | 0 <= k < m ensures Occurs(r, m, k) {
      if k == n {
        assert r[..m][n] == n;
      } else {
        assert Occurs(h, n, k);
        var i :| 0 <= i < n && h[i] == k;
        assert r[..m][i] == k;
      }
    }
    forall i | 1 <= i < m && i != n ensures Under(r, v, i, Up(i)) {
      assert Under(h, v, i, Up(i));
    }
  }
}
