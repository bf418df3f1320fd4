// One level of the tree seen from outside: nodes linked by their high keys.
module Levels {
  import opened Pairs

  // `low` is the low key; that of the first node of a level stands for -Inf and is not read.
  datatype Span = Span(id: NodeID, low: int, high: KeyNodeIDPair)

  // The high key of each node names the next node and is its low key; low keys increase.
  ghost predicate Chained(level: seq<Span>) {
    && |level| > 0
    && (forall i :: 0 <= i < |level| ==> level[i].id != INVALID_NODE_ID)
    && (forall i :: 0 <= i < |level| - 1 ==> Linked(level[i], level[i + 1]))
    && level[|level| - 1].high.second == INVALID_NODE_ID
    && LowsIncrease(level)
  }

  ghost predicate Linked(left: Span, right: Span) {
    left.high == Pair(right.low, right.id)
  }

  ghost predicate LowsIncrease(level: seq<Span>) {
    forall i, j :: 1 <= i < j < |level| ==> level[i].low < level[j].low
  }

  lemma LowOrder(level: seq<Span>, i: int, j: int)
    requires Chained(level)
    ensures 1 <= i < j < |level| ==> level[i].low < level[j].low
  {
  }

  // The node at position i holds the key.
  predicate Covers(level: seq<Span>, i: nat, key: int)
    requires i < |level|
  {
    (i == 0 || level[i].low <= key) && BelowHigh(level[i].high, key)
  }

  // The ranges partition the key space.
  lemma CoverIsUnique(level: seq<Span>, i: nat, j: nat, key: int)
    requires Chained(level) && i < |level| && j < |level| && Covers(level, i, key) && Covers(level, j, key)
    ensures i == j
  {
    if i < j {
      NotBeyond(level, i, j, key);
    } else if j < i {
      NotBeyond(level, j, i, key);
    }
  }

  lemma NotBeyond(level: seq<Span>, i: nat, j: nat, key: int)
    requires Chained(level) && i < j < |level| && level[j].low <= key
    ensures !BelowHigh(level[i].high, key)
  {
    assert Linked(level[i], level[i + 1]);
    assert i + 1 < j ==> level[i + 1].low < level[j].low;
  }

  // Moving right from any node that does not lie beyond the key ends at the node that covers it.
  lemma {:induction false} CoverIsReached(level: seq<Span>, i: nat, key: int) returns (j: nat)
    requires Chained(level) && i < |level| && (i == 0 || level[i].low <= key)
    ensures i <= j < |level| && Covers(level, j, key)
    decreases |level| - i
  {
    if BelowHigh(level[i].high, key) {
      j := i;
    } else {
      assert Linked(level[i], level[i + 1]);
      j := CoverIsReached(level, i + 1, key);
    }
  }

  // ---------- changes ----------

  function InsertBehind<T>(s: seq<T>, i: nat, x: T): seq<T>
    requires i < |s|
  {
    s[..i + 1] + [x] + s[i + 1..]
  }

  lemma InsertBehindElements<T>(s: seq<T>, i: nat, x: T)
    requires i < |s|
    ensures var r := InsertBehind(s, i, x);
            && |r| == |s| + 1 && r[i + 1] == x
            && (forall j :: 0 <= j <= i ==> r[j] == s[j])
            && (forall j :: i + 1 < j < |r| ==> r[j] == s[j - 1])
  {
  }

  function DropBehind<T>(s: seq<T>, i: nat): seq<T>
    requires i + 1 < |s|
  {
    s[..i + 1] + s[i + 2..]
  }

  lemma DropBehindElements<T>(s: seq<T>, i: nat)
    requires i + 1 < |s|
    ensures var r := DropBehind(s, i);
            && |r| == |s| - 1
            && (forall j :: 0 <= j <= i ==> r[j] == s[j])
            && (forall j :: i < j < |r| ==> r[j] == s[j + 1])
  {
  }

  // The node at position i gives away the keys from `key` on to a new node.
  function SplitAt(level: seq<Span>, i: nat, key: int, newId: NodeID): seq<Span>
    requires i < |level|
  {
    InsertBehind(level[i := level[i].(high := Pair(key, newId))], i, Span(newId, key, level[i].high))
  }

  lemma SplitKeepsChain(level: seq<Span>, i: nat, key: int, newId: NodeID)
    requires Chained(level) && i < |level| && newId != INVALID_NODE_ID
    requires (i == 0 || level[i].low < key) && BelowHigh(level[i].high, key)
    ensures Chained(SplitAt(level, i, key, newId))
  {
    var r := SplitAt(level, i, key, newId);
    SplitElements(level, i, key, newId);
    forall j | 0 <= j < |r| - 1 ensures Linked(r[j], r[j + 1]) {
      if j < i {
        assert Linked(level[j], level[j + 1]);
      } else if j > i {
        assert Linked(level[j - 1], level[j]);
      }
    }
    SplitKeepsLows(level, i, key, newId);
  }

  lemma SplitElements(level: seq<Span>, i: nat, key: int, newId: NodeID)
    requires i < |level|
    ensures var r := SplitAt(level, i, key, newId);
            && |r| == |level| + 1
            && (forall j :: 0 <= j < i ==> r[j] == level[j])
            && r[i] == level[i].(high := Pair(key, newId)) && r[i + 1] == Span(newId, key, level[i].high)
            && (forall j :: i + 1 < j < |r| ==> r[j] == level[j - 1])
  {
  }

  lemma SplitKeepsLows(level: seq<Span>, i: nat, key: int, newId: NodeID)
    requires Chained(level) && i < |level|
    requires (i == 0 || level[i].low < key) && BelowHigh(level[i].high, key)
    ensures LowsIncrease(SplitAt(level, i, key, newId))
  {
    var r := SplitAt(level, i, key, newId);
    SplitElements(level, i, key, newId);
    if i + 1 < |level| { assert Linked(level[i], level[i + 1]); }
    forall a, b | 1 <= a < b < |r| ensures r[a].low < r[b].low {
      var a', b' := if a <= i then a else a - 1, if b <= i then b else b - 1;
      assert a' < b' ==> a' == 0 || level[a'].low < level[b'].low;
      if b == i + 1 && 1 <= a < i { assert level[a].low < level[i].low; }
      if a == i + 1 {
        assert level[i + 1].low <= level[b - 1].low by {
          if i + 1 < b - 1 { assert level[i + 1].low < level[b - 1].low; }
        }
      }
    }
  }

  // The node at position i takes over its right neighbour.
  function MergeAt(level: seq<Span>, i: nat): seq<Span>
    requires i + 1 < |level|
  {
    DropBehind(level[i := level[i].(high := level[i + 1].high)], i)
  }

  lemma MergeKeepsChain(level: seq<Span>, i: nat)
    requires Chained(level) && i + 1 < |level|
    ensures Chained(MergeAt(level, i))
  {
    var r := MergeAt(level, i);
    MergeElements(level, i);
    forall j | 0 <= j < |r| - 1 ensures Linked(r[j], r[j + 1]) {
      if j < i {
        assert Linked(level[j], level[j + 1]);
      } else {
        assert Linked(level[j + 1], level[j + 2]);
      }
    }
    forall a, b | 1 <= a < b < |r| ensures r[a].low < r[b].low {
      var a', b' := if a <= i then a else a + 1, if b <= i then b else b + 1;
      assert level[a'].low < level[b'].low;
    }
  }

  lemma MergeElements(level: seq<Span>, i: nat)
    requires i + 1 < |level|
    ensures var r := MergeAt(level, i);
            && |r| == |level| - 1
            && (forall j :: 0 <= j < i ==> r[j] == level[j])
            && r[i] == level[i].(high := level[i + 1].high)
            && (forall j :: i < j < |r| ==> r[j] == level[j + 1])
  {
  }

  // ---------- the nodes on a path of NodeIDs ----------

  ghost predicate Resolves<T>(table: map<NodeID, T>, path: seq<NodeID>) {
    NoDuplicates(path) && forall i :: 0 <= i < |path| ==> path[i] in table
  }

  function Nodes<T>(table: map<NodeID, T>, path: seq<NodeID>): (nodes: seq<T>)
    requires forall i :: 0 <= i < |path| ==> path[i] in table
    ensures |nodes| == |path| && forall i :: 0 <= i < |path| ==> nodes[i] == table[path[i]]
  {
    seq(|path|, i requires 0 <= i < |path| => table[path[i]])
  }

  lemma ReplaceNode<T>(table: map<NodeID, T>, path: seq<NodeID>, i: nat, node: T)
    requires Resolves(table, path) && i < |path|
    ensures var table' := table[path[i] := node];
            Resolves(table', path) && Nodes(table', path) == Nodes(table, path)[i := node]
  {
  }

  lemma InsertBehindMembers<T(!new)>(s: seq<T>, i: nat, x: T)
    requires i < |s|
    ensures forall y :: y in InsertBehind(s, i, x) <==> y in s || y == x
  {
    assert s == s[..i + 1] + s[i + 1..];
  }

  lemma DropBehindMembers<T(!new)>(s: seq<T>, i: nat)
    requires i + 1 < |s| && NoDuplicates(s)
    ensures forall y :: y in DropBehind(s, i) <==> y in s && y != s[i + 1]
  {
    assert s == s[..i + 1] + [s[i + 1]] + s[i + 2..];
  }

  lemma SplitNode<T>(table: map<NodeID, T>, path: seq<NodeID>, i: nat, newId: NodeID, left: T, right: T)
    requires Resolves(table, path) && i < |path| && newId !in path
    ensures var table', path' := table[newId := right][path[i] := left], InsertBehind(path, i, newId);
            && Resolves(table', path')
            && Nodes(table', path') == InsertBehind(Nodes(table, path)[i := left], i, right)
  {
    var table', path' := table[newId := right][path[i] := left], InsertBehind(path, i, newId);
    InsertBehindElements(path, i, newId);
    forall j | 0 <= j < |path'| ensures path'[j] in table' {
      if j != i + 1 { assert path'[j] == path[if j <= i then j else j - 1]; }
    }
    forall a, b | 0 <= a < b < |path'| ensures path'[a] != path'[b] {
      if a != i + 1 { assert path'[a] == path[if a <= i then a else a - 1]; }
      if b != i + 1 { assert path'[b] == path[if b <= i then b else b - 1]; }
    }
    var nodes := Nodes(table, path)[i := left];
    InsertBehindElements(nodes, i, right);
    var r := InsertBehind(nodes, i, right);
    forall j | 0 <= j < |path'| ensures Nodes(table', path')[j] == r[j] {
      if j != i + 1 { assert path'[j] == path[if j <= i then j else j - 1]; }
    }
  }

  lemma DropNode<T>(table: map<NodeID, T>, path: seq<NodeID>, i: nat, left: T)
    requires Resolves(table, path) && i + 1 < |path|
    ensures var table', path' := table[path[i] := left], DropBehind(path, i);
            && Resolves(table', path') && path[i + 1] !in path'
            && Nodes(table', path') == DropBehind(Nodes(table, path)[i := left], i)
  {
    var table', path' := table[path[i] := left], DropBehind(path, i);
    DropBehindElements(path, i);
    var nodes := Nodes(table, path)[i := left];
    DropBehindElements(nodes, i);
    var r := DropBehind(nodes, i);
    forall j | 0 <= j < |path'| ensures path'[j] in table' && Nodes(table', path')[j] == r[j] {
      assert path'[j] == path[if j <= i then j else j + 1];
    }
  }
}
