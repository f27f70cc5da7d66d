// The nodes of a skip list in key order, where the pointers of each level lead,
// and what inserting or removing a node does to them.

module SkipNodes {
  import Lex

  type Key = seq<int>

  const MAX_LEVEL: nat := 40

  class Node<V> {
    const key: Key
    const level: nat
    var value: V
    var next: seq<Node?<V>>

    constructor (level: nat, key: Key, value: V)
      ensures this.level == level && this.key == key && this.value == value
      ensures next == seq(level, _ => null)
    {
      this.level, this.key, this.value := level, key, value;
      next := seq(level, _ => null);
    }
  }

  /* ---- the order of the nodes; position 0 is the head ---- */

  ghost predicate Ordered<V>(nodes: seq<Node<V>>) {
    && (forall a, b :: 1 <= a < b < |nodes| ==> Lex.Less(nodes[a].key, nodes[b].key))
    && (forall a, b :: 0 <= a < b < |nodes| ==> nodes[a] != nodes[b])
  }

  lemma AtLeast<V>(nodes: seq<Node<V>>, q: nat, key: Key)
    requires Ordered(nodes) && 1 <= q < |nodes| && !Lex.Less(nodes[q].key, key)
    ensures forall a :: q <= a < |nodes| ==> !Lex.Less(nodes[a].key, key)
  {
    hide Lex.Less;
    forall a | q < a < |nodes| && Lex.Less(nodes[a].key, key) ensures false {
      Lex.LessTransitive(nodes[q].key, nodes[a].key, key);
    }
  }

  // The first position, from q on, whose key is not below the given one.
  ghost function RankFrom<V>(nodes: seq<Node<V>>, q: nat, key: Key): (r: nat)
    requires Ordered(nodes) && 1 <= q <= |nodes|
    ensures q <= r <= |nodes|
    ensures forall a :: q <= a < r ==> Lex.Less(nodes[a].key, key)
    ensures forall a :: r <= a < |nodes| ==> !Lex.Less(nodes[a].key, key)
    decreases |nodes| - q
  {
    if q == |nodes| then q
    else if Lex.Less(nodes[q].key, key) then RankFrom(nodes, q + 1, key)
    else AtLeast(nodes, q, key); q
  }

  ghost function Rank<V>(nodes: seq<Node<V>>, key: Key): (r: nat)
    requires Ordered(nodes) && nodes != []
    ensures 1 <= r <= |nodes|
    ensures forall a :: 1 <= a < r ==> Lex.Less(nodes[a].key, key)
    ensures forall a :: r <= a < |nodes| ==> !Lex.Less(nodes[a].key, key)
  {
    RankFrom(nodes, 1, key)
  }

  ghost predicate Present<V>(nodes: seq<Node<V>>, key: Key)
    requires Ordered(nodes) && nodes != []
  {
    Rank(nodes, key) < |nodes| && nodes[Rank(nodes, key)].key == key
  }

  lemma RankOf<V>(nodes: seq<Node<V>>, a: nat)
    requires Ordered(nodes) && 1 <= a < |nodes|
    ensures Rank(nodes, nodes[a].key) == a
  {
    hide Lex.Less;
    Lex.LessIrreflexive(nodes[a].key);
    var found := At(nodes, Rank(nodes, nodes[a].key));
  }

  lemma NotBelow<V>(nodes: seq<Node<V>>, c: nat, key: Key)
    requires Ordered(nodes) && 1 <= c < |nodes| && Lex.Less(key, nodes[c].key)
    ensures c >= Rank(nodes, key)
    ensures c == Rank(nodes, key) ==> !Present(nodes, key)
  {
    hide Lex.Less;
    Lex.LessIrreflexive(key);
    if c < Rank(nodes, key) { Lex.LessTransitive(key, nodes[c].key, key); }
  }

  lemma RankOfBlank<V>(nodes: seq<Node<V>>)
    requires Ordered(nodes) && nodes != []
    ensures Rank(nodes, []) == 1
  {
    if |nodes| > 1 { assert !Lex.Less(nodes[1].key, []); }
  }

  /* ---- heights ---- */

  ghost function FirstTall<V>(nodes: seq<Node<V>>, q: nat, i: nat): (r: nat)
    requires q <= |nodes|
    ensures q <= r <= |nodes|
    ensures r < |nodes| ==> nodes[r].level > i
    ensures forall a :: q <= a < r ==> nodes[a].level <= i
    decreases |nodes| - q
  {
    if q == |nodes| || nodes[q].level > i then q else FirstTall(nodes, q + 1, i)
  }

  ghost function LastTall<V>(nodes: seq<Node<V>>, j: nat, i: nat): (r: nat)
    requires 0 < j <= |nodes| && nodes[0].level > i
    ensures r < j && nodes[r].level > i
    ensures forall a :: r < a < j ==> nodes[a].level <= i
  {
    if nodes[j - 1].level > i then j - 1 else LastTall(nodes, j - 1, i)
  }

  ghost function At<V>(nodes: seq<Node<V>>, q: nat): Node?<V> {
    if q < |nodes| then nodes[q] else null
  }

  // The node that level i leads to from position p.
  ghost function Successor<V>(nodes: seq<Node<V>>, p: nat, i: nat): Node?<V>
    requires p < |nodes|
  {
    At(nodes, FirstTall(nodes, p + 1, i))
  }

  ghost predicate Linked<V>(nodes: seq<Node<V>>, i: nat)
    reads nodes`next
  {
    forall p :: 0 <= p < |nodes| && i < nodes[p].level && i < |nodes[p].next| ==>
      nodes[p].next[i] == Successor(nodes, p, i)
  }

  ghost predicate Sized<V>(nodes: seq<Node<V>>)
    reads nodes`next
  {
    forall p :: 0 <= p < |nodes| ==> |nodes[p].next| == nodes[p].level
  }

  ghost predicate Shape<V>(nodes: seq<Node<V>>, level: nat) {
    && nodes != [] && nodes[0].level == MAX_LEVEL
    && Ordered(nodes)
    && 1 <= level <= MAX_LEVEL
    && (forall a :: 1 <= a < |nodes| ==> 1 <= nodes[a].level <= level)
    && (level > 1 ==> exists a :: 1 <= a < |nodes| && nodes[a].level == level)
  }

  // At every level in use, the last node before position j.
  ghost predicate PrevsAt<V>(nodes: seq<Node<V>>, prevs: seq<Node?<V>>, j: nat, level: nat)
    requires 0 < j <= |nodes| && nodes[0].level >= level
  {
    && |prevs| == level
    && forall i :: 0 <= i < level ==> prevs[i] == nodes[LastTall(nodes, j, i)]
  }

  /* ---- the map ---- */

  ghost function Keys<V>(nodes: seq<Node<V>>): set<Key> {
    set a | 1 <= a < |nodes| :: nodes[a].key
  }

  ghost function Entries<V>(nodes: seq<Node<V>>): (m: map<Key, V>)
    requires Ordered(nodes) && nodes != []
    reads nodes`value
  {
    map k | k in Keys(nodes) && Present(nodes, k) :: nodes[Rank(nodes, k)].value
  }

  lemma EntryAt<V>(nodes: seq<Node<V>>, key: Key)
    requires Ordered(nodes) && nodes != []
    ensures key in Entries(nodes) <==> Present(nodes, key)
    ensures Present(nodes, key) ==> Entries(nodes)[key] == nodes[Rank(nodes, key)].value
  {
    hide Lex.Less, Ordered;
  }

  lemma EveryEntry<V>(nodes: seq<Node<V>>)
    requires Ordered(nodes) && nodes != []
    ensures forall a :: 1 <= a < |nodes| ==>
              nodes[a].key in Entries(nodes) && Entries(nodes)[nodes[a].key] == nodes[a].value
    ensures forall k :: k in Entries(nodes) ==> exists a :: 1 <= a < |nodes| && nodes[a].key == k
  {
    hide Lex.Less, Ordered;
    forall a | 1 <= a < |nodes| ensures nodes[a].key in Entries(nodes) && Entries(nodes)[nodes[a].key] == nodes[a].value {
      RankOf(nodes, a);
    }
  }

  // What determines the map of a node sequence.
  lemma EntriesAre<V>(nodes: seq<Node<V>>, m: map<Key, V>)
    requires Ordered(nodes) && nodes != []
    requires forall a :: 1 <= a < |nodes| ==> nodes[a].key in m && m[nodes[a].key] == nodes[a].value
    requires forall k :: k in m ==> exists a :: 1 <= a < |nodes| && nodes[a].key == k
    ensures Entries(nodes) == m
  {
    hide Lex.Less, Ordered, Entries;
    EveryEntry(nodes);
  }

  lemma EntriesFront<V>(nodes: seq<Node<V>>)
    requires Ordered(nodes) && |nodes| > 1
    ensures var n := nodes[|nodes| - 1];
            var front := nodes[..|nodes| - 1];
            Ordered(front) && n.key !in Entries(front) && Entries(nodes) == Entries(front)[n.key := n.value]
  {
    hide Lex.Less, Entries;
    var n := nodes[|nodes| - 1];
    var front := nodes[..|nodes| - 1];
    EveryEntry(front);
    Lex.LessIrreflexive(n.key);
    EntriesAre(nodes, Entries(front)[n.key := n.value]);
  }

  lemma {:induction false} EntryCount<V>(nodes: seq<Node<V>>)
    requires Ordered(nodes) && nodes != []
    ensures |Entries(nodes)| == |nodes| - 1
  {
    hide Ordered;
    if |nodes| == 1 {
      assert Entries(nodes) == map[];
    } else {
      EntriesFront(nodes);
      EntryCount(nodes[..|nodes| - 1]);
    }
  }

  /* ---- inserting and removing a position ---- */

  lemma FirstIs<V>(nodes: seq<Node<V>>, q: nat, i: nat, r: nat)
    requires q <= r <= |nodes| && (r < |nodes| ==> nodes[r].level > i)
    requires forall a :: q <= a < r ==> nodes[a].level <= i
    ensures FirstTall(nodes, q, i) == r
  {
  }

  ghost function Spliced<V>(nodes: seq<Node<V>>, j: nat, n: Node<V>): (r: seq<Node<V>>)
    requires j <= |nodes|
    ensures |r| == |nodes| + 1 && r[j] == n
    ensures forall a :: 0 <= a < j ==> r[a] == nodes[a]
    ensures forall a :: j < a < |r| ==> r[a] == nodes[a - 1]
  {
    nodes[..j] + [n] + nodes[j..]
  }

  lemma SplicedMembers<V>(nodes: seq<Node<V>>, j: nat, n: Node<V>)
    requires j <= |nodes|
    ensures forall p :: 0 <= p < |nodes| + 1 ==> Spliced(nodes, j, n)[p] == n || Spliced(nodes, j, n)[p] in nodes
  {
  }

  // Where level i leads once n stands at position j: its predecessor at that
  // level leads to n, n to where the predecessor led, and nothing else moves.
  lemma SplicedBefore<V>(nodes: seq<Node<V>>, j: nat, n: Node<V>, p: nat, i: nat)
    requires 0 < j <= |nodes| && p < j && nodes[0].level > i && nodes[p].level > i
    ensures Successor(Spliced(nodes, j, n), p, i) ==
      if n.level > i && p == LastTall(nodes, j, i) then n else Successor(nodes, p, i)
  {
    hide Spliced;
    var s := Spliced(nodes, j, n);
    var f := FirstTall(nodes, p + 1, i);
    FirstIs(s, p + 1, i, if f < j then f else if n.level > i then j else f + 1);
  }

  lemma SplicedAfter<V>(nodes: seq<Node<V>>, j: nat, n: Node<V>, p: nat, i: nat)
    requires j <= p < |nodes|
    ensures Successor(Spliced(nodes, j, n), p + 1, i) == Successor(nodes, p, i)
  {
    hide Spliced;
    FirstIs(Spliced(nodes, j, n), p + 2, i, FirstTall(nodes, p + 1, i) + 1);
  }

  lemma SplicedSelf<V>(nodes: seq<Node<V>>, j: nat, n: Node<V>, i: nat)
    requires 0 < j <= |nodes| && nodes[0].level > i
    ensures Successor(Spliced(nodes, j, n), j, i) == Successor(nodes, LastTall(nodes, j, i), i)
  {
    hide Spliced;
    FirstIs(Spliced(nodes, j, n), j + 1, i, FirstTall(nodes, LastTall(nodes, j, i) + 1, i) + 1);
  }

  lemma LinkedSpliced<V>(nodes: seq<Node<V>>, j: nat, n: Node<V>, i: nat)
    requires 0 < j <= |nodes| && nodes[0].level > i && i < n.level && i < |n.next|
    requires n.next[i] == Successor(nodes, LastTall(nodes, j, i), i)
    requires forall p :: 0 <= p < |nodes| && i < nodes[p].level && i < |nodes[p].next| ==>
               nodes[p].next[i] == if p == LastTall(nodes, j, i) then n else Successor(nodes, p, i)
    ensures Linked(Spliced(nodes, j, n), i)
  {
    hide Spliced, Successor, FirstTall;
    var s := Spliced(nodes, j, n);
    forall p | 0 <= p < |s| && i < s[p].level && i < |s[p].next| ensures s[p].next[i] == Successor(s, p, i) {
      if p < j { SplicedBefore(nodes, j, n, p, i); }
      else if p == j { SplicedSelf(nodes, j, n, i); }
      else { SplicedAfter(nodes, j, n, p - 1, i); }
    }
  }

  lemma LinkedUntouched<V>(nodes: seq<Node<V>>, j: nat, n: Node<V>, i: nat)
    requires 0 < j <= |nodes| && nodes[0].level > i && n.level <= i && Linked(nodes, i)
    ensures Linked(Spliced(nodes, j, n), i)
  {
    hide Spliced, Successor, FirstTall;
    var s := Spliced(nodes, j, n);
    forall p | 0 <= p < |s| && i < s[p].level && i < |s[p].next| ensures s[p].next[i] == Successor(s, p, i) {
      if p < j { SplicedBefore(nodes, j, n, p, i); }
      else { SplicedAfter(nodes, j, n, p - 1, i); }
    }
  }

  lemma ShapeSpliced<V>(nodes: seq<Node<V>>, level: nat, n: Node<V>)
    requires Shape(nodes, level) && n !in nodes && 1 <= n.level <= MAX_LEVEL && !Present(nodes, n.key)
    ensures Shape(Spliced(nodes, Rank(nodes, n.key), n), if n.level > level then n.level else level)
  {
    hide Spliced, Lex.Less;
    var j := Rank(nodes, n.key);
    var s := Spliced(nodes, j, n);
    if j < |nodes| {
      Lex.LessTotal(nodes[j].key, n.key);
      forall a | j < a < |nodes| ensures Lex.Less(n.key, nodes[a].key) {
        Lex.LessTransitive(n.key, nodes[j].key, nodes[a].key);
      }
    }
    if n.level > level {
      assert s[j].level == n.level;
    } else if level > 1 {
      var a :| 1 <= a < |nodes| && nodes[a].level == level;
      assert s[if a < j then a else a + 1].level == level;
    }
  }

  lemma KeyOnce<V>(nodes: seq<Node<V>>, j: nat)
    requires Ordered(nodes) && 1 <= j < |nodes|
    ensures forall a :: 1 <= a < |nodes| && a != j ==> nodes[a] != nodes[j] && nodes[a].key != nodes[j].key
  {
    hide Lex.Less;
    forall a | 1 <= a < |nodes| && nodes[a].key == nodes[j].key ensures a == j {
      RankOf(nodes, a);
      RankOf(nodes, j);
    }
  }

  lemma EntriesSpliced<V>(nodes: seq<Node<V>>, n: Node<V>)
    requires Ordered(nodes) && nodes != [] && !Present(nodes, n.key)
    requires Ordered(Spliced(nodes, Rank(nodes, n.key), n))
    ensures Entries(Spliced(nodes, Rank(nodes, n.key), n)) == Entries(nodes)[n.key := n.value]
  {
    hide Spliced, Entries, Ordered;
    var j := Rank(nodes, n.key);
    var s := Spliced(nodes, j, n);
    var m := Entries(nodes)[n.key := n.value];
    EveryEntry(nodes);
    forall a | 1 <= a < |nodes| ensures nodes[a].key != n.key { RankOf(nodes, a); }
    forall k | k in m ensures exists a :: 1 <= a < |s| && s[a].key == k {
      if k == n.key { assert s[j].key == k; }
      else {
        var a :| 1 <= a < |nodes| && nodes[a].key == k;
        assert s[if a < j then a else a + 1].key == k;
      }
    }
    EntriesAre(s, m);
  }

  // An insertion in progress: n is linked below level i and not yet from there on.
  ghost predicate LinkedBelow<V>(nodes: seq<Node<V>>, j: nat, n: Node<V>, i: nat)
    requires j <= |nodes|
    reads nodes`next, n`next
  {
    && Sized(Spliced(nodes, j, n))
    && (forall l :: 0 <= l < i ==> Linked(Spliced(nodes, j, n), l))
    && (forall l :: i <= l < MAX_LEVEL ==> Linked(nodes, l))
    && (forall l :: i <= l < |n.next| ==> n.next[l] == null)
  }

  method LinkLevel<V>(prev: Node<V>, n: Node<V>, i: nat, ghost nodes: seq<Node<V>>, ghost j: nat)
    requires 0 < j <= |nodes| && Ordered(nodes) && n !in nodes && i < nodes[0].level == MAX_LEVEL && i < n.level
    requires prev == nodes[LastTall(nodes, j, i)] && LinkedBelow(nodes, j, n, i)
    modifies n`next, prev`next
    ensures LinkedBelow(nodes, j, n, i + 1)
  {
    hide Spliced, Successor, LastTall, Lex.Less;
    ghost var s := Spliced(nodes, j, n);
    assert s[j] == n && s[LastTall(nodes, j, i)] == prev;
    assert Linked(nodes, i);
    n.next := n.next[i := prev.next[i]];
    prev.next := prev.next[i := n];
    LinkedSpliced(nodes, j, n, i);
    forall l | 0 <= l < i ensures Linked(s, l) { assert old(Linked(s, l)); }
    forall l | i < l < MAX_LEVEL ensures Linked(nodes, l) { assert old(Linked(nodes, l)); }
  }

  lemma EmptyLevel<V>(nodes: seq<Node<V>>, i: nat)
    requires nodes != [] && forall a :: 1 <= a < |nodes| ==> nodes[a].level <= i
    ensures Successor(nodes, 0, i) == null
  {
    FirstIs(nodes, 1, i, |nodes|);
  }

  // A level that was empty: only the head has to change.
  method LinkTop<V>(head: Node<V>, n: Node<V>, i: nat, ghost nodes: seq<Node<V>>, ghost j: nat)
    requires 0 < j <= |nodes| && Ordered(nodes) && n !in nodes && i < nodes[0].level == MAX_LEVEL && i < n.level
    requires head == nodes[0] && LinkedBelow(nodes, j, n, i)
    requires forall a :: 1 <= a < |nodes| ==> nodes[a].level <= i
    modifies head`next
    ensures LinkedBelow(nodes, j, n, i + 1)
  {
    hide Spliced, Lex.Less, Successor;
    ghost var s := Spliced(nodes, j, n);
    assert s[j] == n && s[0] == head;
    EmptyLevel(nodes, i);
    assert Linked(nodes, i);
    head.next := head.next[i := n];
    LinkedSpliced(nodes, j, n, i);
    forall l | 0 <= l < i ensures Linked(s, l) { assert old(Linked(s, l)); }
    forall l | i < l < MAX_LEVEL ensures Linked(nodes, l) { assert old(Linked(nodes, l)); }
  }

  lemma EndLinking<V>(nodes: seq<Node<V>>, j: nat, n: Node<V>)
    requires j <= |nodes| && LinkedBelow(nodes, j, n, n.level)
    ensures Sized(Spliced(nodes, j, n))
  {
  }

  lemma LinkedAll<V>(nodes: seq<Node<V>>, j: nat, n: Node<V>, i: nat)
    requires 0 < j <= |nodes| && nodes[0].level == MAX_LEVEL && n.level <= i && LinkedBelow(nodes, j, n, i)
    ensures forall l :: 0 <= l < MAX_LEVEL ==> Linked(Spliced(nodes, j, n), l)
  {
    hide Linked, Spliced;
    forall l | i <= l < MAX_LEVEL ensures Linked(Spliced(nodes, j, n), l) { LinkedUntouched(nodes, j, n, l); }
  }

  /* ---- removal: the node at position j of s, where s is nodes with n spliced in ---- */

  ghost predicate UnlinkedBelow<V>(nodes: seq<Node<V>>, j: nat, n: Node<V>, i: nat)
    requires j <= |nodes|
    reads nodes`next, n`next
  {
    && Sized(Spliced(nodes, j, n))
    && (forall l :: 0 <= l < i ==> Linked(nodes, l))
    && (forall l :: i <= l < MAX_LEVEL ==> Linked(Spliced(nodes, j, n), l))
  }

  lemma LinkedCut<V>(nodes: seq<Node<V>>, j: nat, n: Node<V>, i: nat)
    requires 0 < j <= |nodes| && i < nodes[0].level && i < n.level && i < |n.next|
    requires n.next[i] == Successor(Spliced(nodes, j, n), j, i)
    requires var s := Spliced(nodes, j, n);
             forall p :: 0 <= p < |s| && i < s[p].level && i < |s[p].next| ==>
               s[p].next[i] == if p == LastTall(nodes, j, i) then n.next[i] else Successor(s, p, i)
    ensures Linked(nodes, i)
  {
    hide Spliced, Successor, FirstTall;
    var s := Spliced(nodes, j, n);
    SplicedSelf(nodes, j, n, i);
    forall p | 0 <= p < |nodes| && i < nodes[p].level && i < |nodes[p].next|
      ensures nodes[p].next[i] == Successor(nodes, p, i)
    {
      if p < j {
        assert s[p] == nodes[p];
        SplicedBefore(nodes, j, n, p, i);
      } else {
        assert s[p + 1] == nodes[p];
        SplicedAfter(nodes, j, n, p, i);
      }
    }
  }

  lemma CutUntouched<V>(nodes: seq<Node<V>>, j: nat, n: Node<V>, i: nat)
    requires 0 < j <= |nodes| && i < nodes[0].level && n.level <= i && Linked(Spliced(nodes, j, n), i)
    ensures Linked(nodes, i)
  {
    hide Spliced, Successor, FirstTall;
    var s := Spliced(nodes, j, n);
    forall p | 0 <= p < |nodes| && i < nodes[p].level && i < |nodes[p].next|
      ensures nodes[p].next[i] == Successor(nodes, p, i)
    {
      if p < j {
        assert s[p] == nodes[p];
        SplicedBefore(nodes, j, n, p, i);
      } else {
        assert s[p + 1] == nodes[p];
        SplicedAfter(nodes, j, n, p, i);
      }
    }
  }

  method UnlinkLevel<V>(prev: Node<V>, n: Node<V>, i: nat, ghost nodes: seq<Node<V>>, ghost j: nat)
    requires 0 < j <= |nodes| && Ordered(Spliced(nodes, j, n)) && i < nodes[0].level == MAX_LEVEL && i < n.level
    requires prev == nodes[LastTall(nodes, j, i)] && UnlinkedBelow(nodes, j, n, i)
    modifies prev`next
    ensures UnlinkedBelow(nodes, j, n, i + 1)
  {
    hide Spliced, Successor, LastTall, Lex.Less;
    ghost var s := Spliced(nodes, j, n);
    assert s[j] == n && s[LastTall(nodes, j, i)] == prev;
    assert Linked(s, i);
    prev.next := prev.next[i := n.next[i]];
    LinkedCut(nodes, j, n, i);
    forall l | 0 <= l < i ensures Linked(nodes, l) { assert old(Linked(nodes, l)); }
    forall l | i < l < MAX_LEVEL ensures Linked(s, l) { assert old(Linked(s, l)); }
  }

  lemma UnlinkedAll<V>(nodes: seq<Node<V>>, j: nat, n: Node<V>)
    requires 0 < j <= |nodes| && nodes[0].level == MAX_LEVEL && UnlinkedBelow(nodes, j, n, n.level)
    ensures Sized(nodes)
    ensures forall l :: 0 <= l < MAX_LEVEL ==> Linked(nodes, l)
  {
    hide Linked, Spliced;
    var s := Spliced(nodes, j, n);
    assert forall p :: 0 <= p < |nodes| ==> nodes[p] == s[if p < j then p else p + 1];
    forall l | n.level <= l < MAX_LEVEL ensures Linked(nodes, l) { CutUntouched(nodes, j, n, l); }
  }

  ghost function Cut<V>(nodes: seq<Node<V>>, j: nat): (r: seq<Node<V>>)
    requires j < |nodes|
    ensures |r| == |nodes| - 1 && nodes == Spliced(r, j, nodes[j])
  {
    nodes[..j] + nodes[j + 1..]
  }

  // What is known of the heights before the level is lowered.
  ghost predicate Bounded<V>(nodes: seq<Node<V>>, level: nat) {
    && nodes != [] && nodes[0].level == MAX_LEVEL
    && Ordered(nodes)
    && 1 <= level <= MAX_LEVEL
    && (forall a :: 1 <= a < |nodes| ==> 1 <= nodes[a].level <= level)
  }

  lemma BoundedCut<V>(nodes: seq<Node<V>>, level: nat, j: nat)
    requires Shape(nodes, level) && 1 <= j < |nodes|
    ensures Bounded(Cut(nodes, j), level)
    ensures forall i :: 0 <= i < level ==> LastTall(Cut(nodes, j), j, i) == LastTall(nodes, j, i)
    ensures forall a :: 0 <= a < j ==> Cut(nodes, j)[a] == nodes[a]
  {
    hide Lex.Less;
    var cut := Cut(nodes, j);
    assert forall a :: 0 <= a < |cut| ==> cut[a] == nodes[if a < j then a else a + 1];
    forall i | 0 <= i < level ensures LastTall(cut, j, i) == LastTall(nodes, j, i) {
      SameLast(cut, nodes, j, i);
    }
  }

  lemma {:induction false} SameLast<V>(a: seq<Node<V>>, b: seq<Node<V>>, j: nat, i: nat)
    requires 0 < j <= |a| && j <= |b| && a[..j] == b[..j] && a[0].level > i
    ensures b[0].level > i && LastTall(a, j, i) == LastTall(b, j, i)
  {
    assert forall k :: 0 <= k < j ==> a[..j][k] == a[k] && b[..j][k] == b[k];
    assert a[0] == b[0];
  }

  lemma EntriesCut<V>(nodes: seq<Node<V>>, j: nat)
    requires Ordered(nodes) && 1 <= j < |nodes| && Ordered(Cut(nodes, j))
    ensures Entries(Cut(nodes, j)) == Entries(nodes) - {nodes[j].key}
  {
    hide Lex.Less, Entries, Cut;
    var cut, n := Cut(nodes, j), nodes[j];
    EveryEntry(nodes);
    KeyOnce(nodes, j);
    var m := Entries(nodes) - {n.key};
    forall k | k in m ensures exists a :: 1 <= a < |cut| && cut[a].key == k {
      var a :| 1 <= a < |nodes| && nodes[a].key == k;
      assert cut[if a < j then a else a - 1].key == k;
    }
    assert forall a :: 1 <= a < |cut| ==> cut[a] == nodes[if a < j then a else a + 1];
    EntriesAre(cut, m);
  }

  /* ---- the levels as lists ---- */

  // The nodes from position p on that reach level i.
  ghost function TallFrom<V>(nodes: seq<Node<V>>, p: nat, i: nat): seq<Node<V>>
    requires p <= |nodes|
    decreases |nodes| - p
  {
    if p == |nodes| then []
    else if nodes[p].level > i then [nodes[p]] + TallFrom(nodes, p + 1, i)
    else TallFrom(nodes, p + 1, i)
  }

  // The level-i pointers run through exactly the nodes of the list, to its end.
  ghost predicate Chain<V>(list: seq<Node<V>>, i: nat)
    reads list`next
  {
    forall k :: 0 <= k < |list| ==>
      i < |list[k].next| && list[k].next[i] == if k + 1 < |list| then list[k + 1] else null
  }

  lemma {:induction false} TallStarts<V>(nodes: seq<Node<V>>, p: nat, i: nat)
    requires p <= |nodes|
    ensures var f := FirstTall(nodes, p, i);
            TallFrom(nodes, p, i) == if f == |nodes| then [] else [nodes[f]] + TallFrom(nodes, f + 1, i)
    decreases |nodes| - p
  {
    if p < |nodes| && nodes[p].level <= i { TallStarts(nodes, p + 1, i); }
  }

  lemma EmptyChain<V>(i: nat)
    ensures Chain<V>([], i)
  {
  }

  lemma ChainCons<V>(n: Node<V>, rest: seq<Node<V>>, i: nat)
    requires Chain(rest, i) && i < |n.next| && n.next[i] == if rest == [] then null else rest[0]
    ensures Chain([n] + rest, i)
  {
  }

  lemma {:induction false} TallChain<V>(nodes: seq<Node<V>>, p: nat, i: nat)
    requires p <= |nodes| && Sized(nodes) && Linked(nodes, i)
    ensures Chain(TallFrom(nodes, p, i), i)
    decreases |nodes| - p
  {
    hide Chain;
    if p == |nodes| {
      EmptyChain<V>(i);
    } else {
      TallChain(nodes, p + 1, i);
      if nodes[p].level > i {
        TallStarts(nodes, p + 1, i);
        ChainCons(nodes[p], TallFrom(nodes, p + 1, i), i);
      }
    }
  }

  lemma {:induction false} TallIn<V>(nodes: seq<Node<V>>, p: nat, i: nat, n: Node<V>)
    requires p <= |nodes|
    ensures n in TallFrom(nodes, p, i) <==> n in nodes[p..] && n.level > i
    decreases |nodes| - p
  {
    if p < |nodes| {
      TallIn(nodes, p + 1, i, n);
      assert nodes[p..] == [nodes[p]] + nodes[p + 1..];
    }
  }

  lemma {:induction false} TallOrdered<V>(nodes: seq<Node<V>>, p: nat, i: nat)
    requires 1 <= p <= |nodes| && Ordered(nodes)
    ensures Increasing(TallFrom(nodes, p, i))
    decreases |nodes| - p
  {
    hide Lex.Less;
    if p < |nodes| {
      TallOrdered(nodes, p + 1, i);
      if nodes[p].level > i {
        var rest := TallFrom(nodes, p + 1, i);
        forall k | 0 <= k < |rest| ensures Lex.Less(nodes[p].key, rest[k].key) {
          TallIn(nodes, p + 1, i, rest[k]);
          var a :| 0 <= a < |nodes| - p - 1 && nodes[p + 1..][a] == rest[k];
          assert nodes[p + 1 + a] == rest[k];
        }
      }
    }
  }

  ghost predicate Increasing<V>(list: seq<Node<V>>) {
    forall a, b :: 0 <= a < b < |list| ==> Lex.Less(list[a].key, list[b].key)
  }
}
