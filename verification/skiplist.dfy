// The skip list: linked nodes of varying height that behave as a sorted map,
// whatever heights are drawn.

module SkipLists {
  import Lex
  import opened SkipNodes

  datatype Option<T> = None | Some(value: T)

  class SkipList<V> {
    const head: Node<V>
    var level: nat
    var size: nat
    ghost var nodes: seq<Node<V>>

    ghost predicate Valid()
      reads this, nodes
    {
      && Shape(nodes, level) && nodes[0] == head && head.key == []
      && size == |nodes| - 1
      && Sized(nodes)
      && (forall i :: 0 <= i < MAX_LEVEL ==> Linked(nodes, i))
    }

    constructor (blank: V)
      ensures Valid() && nodes == [head] && fresh(head) && Contents() == map[]
    {
      var h := new Node(MAX_LEVEL, [], blank);
      head := h;
      level, size, nodes := 1, 0, [h];
    }

    ghost function Contents(): map<Key, V>
      requires Valid()
      reads this, nodes
    {
      Entries(nodes)
    }

    lemma SizeCounts()
      requires Valid()
      ensures size == |Contents()|
    {
      EntryCount(nodes);
    }

    method Find(key: Key) returns (value: Option<V>)
      requires Valid()
      ensures value == if key in Contents() then Some(Contents()[key]) else None
    {
      hide Ordered, Entries, Linked, Rank;
      EntryAt(nodes, key);
      var node := FindNode(key);
      value := if node != null then Some(node.value) else None;
    }

    // Insert, with the drawn height as a parameter.
    method Insert(key: Key, value: V, height: nat)
      requires Valid() && 1 <= height <= MAX_LEVEL
      modifies this, nodes
      ensures Valid()
      ensures Contents() == old(Contents())[key := value]
      ensures forall p :: 0 <= p < |nodes| ==> nodes[p] in old(nodes) || fresh(nodes[p])
      ensures old(Present(nodes, key)) ==> nodes == old(nodes) && level == old(level)
      ensures !old(Present(nodes, key)) ==>
        var j := old(Rank(nodes, key));
        j < |nodes| && fresh(nodes[j]) && nodes[j].level == height && nodes == Spliced(old(nodes), j, nodes[j])
    {
      hide Ordered, Spliced, Entries, Linked, Sized, PrevsAt, Rank;
      var node, prevs := FindInsertPoint(key);
      if node != null {
        SetValue(node, value, Rank(nodes, key));
      } else {
        ghost var j := Rank(nodes, key);
        InsertNode(key, value, height, prevs);
        SplicedMembers(old(nodes), j, nodes[j]);
      }
    }

    method SetValue(node: Node<V>, value: V, ghost j: nat)
      requires Valid() && 1 <= j < |nodes| && node == nodes[j]
      modifies node`value
      ensures Valid() && Contents() == old(Contents())[node.key := value]
    {
      hide Ordered, Entries, Linked, Sized, Rank;
      ghost var m := Contents();
      EveryEntry(nodes);
      KeyOnce(nodes, j);
      node.value := value;
      EntriesAre(nodes, m[node.key := value]);
    }

    method InsertNode(key: Key, value: V, height: nat, prevs: seq<Node?<V>>)
      requires Valid() && 1 <= height <= MAX_LEVEL && !Present(nodes, key)
      requires PrevsAt(nodes, prevs, Rank(nodes, key), level)
      modifies this, nodes`next
      ensures Valid() && Contents() == old(Contents())[key := value]
      ensures var j := old(Rank(nodes, key));
              j < |nodes| && fresh(nodes[j]) && nodes[j].level == height && nodes == Spliced(old(nodes), j, nodes[j])
    {
      hide Ordered, Spliced, Entries, Linked, Sized, PrevsAt, Rank;
      var n := new Node(height, key, value);
      ghost var j := Rank(nodes, key);
      ShapeSpliced(nodes, level, n);
      EntriesSpliced(nodes, n);
      Link(n, prevs, j);
      nodes := Spliced(nodes, j, n);
      if height > level { level := height; }
      size := size + 1;
    }

    method Link(n: Node<V>, prevs: seq<Node?<V>>, ghost j: nat)
      requires Valid() && 0 < j <= |nodes| && PrevsAt(nodes, prevs, j, level)
      requires n !in nodes && 1 <= n.level <= MAX_LEVEL && n.next == seq(n.level, _ => null)
      modifies n`next, nodes`next
      ensures Sized(Spliced(nodes, j, n))
      ensures forall i :: 0 <= i < MAX_LEVEL ==> Linked(Spliced(nodes, j, n), i)
    {
      hide Ordered, Linked, Sized, LastTall, LinkedBelow;
      StartLinking(n, j);
      var min := if n.level < level then n.level else level;
      for i := 0 to min
        invariant LinkedBelow(nodes, j, n, i)
      {
        LinkLevel(prevs[i], n, i, nodes, j);
      }
      if n.level > level {
        for i := level to n.level
          invariant LinkedBelow(nodes, j, n, i)
        {
          LinkTop(head, n, i, nodes, j);
        }
      }
      LinkedAll(nodes, j, n, n.level);
      assert Sized(Spliced(nodes, j, n)) by { EndLinking(nodes, j, n); }
    }

    lemma StartLinking(n: Node<V>, j: nat)
      requires Valid() && 0 < j <= |nodes| && n.next == seq(n.level, _ => null)
      ensures LinkedBelow(nodes, j, n, 0)
    {
    }

    method Remove(key: Key) returns (value: Option<V>)
      requires Valid()
      modifies this, nodes`next
      ensures Valid()
      ensures value == if key in old(Contents()) then Some(old(Contents())[key]) else None
      ensures Contents() == old(Contents()) - {key}
      ensures forall p :: 0 <= p < |nodes| ==> nodes[p] in old(nodes)
      ensures nodes == if old(Present(nodes, key)) then Cut(old(nodes), old(Rank(nodes, key))) else old(nodes)
    {
      hide Ordered, Cut, Entries, Linked, Sized, PrevsAt, Rank;
      EntryAt(nodes, key);
      var node, prevs := FindRemovePoint(key);
      if node == null {
        assert Contents() == Contents() - {key};
        return None;
      }
      value := Some(node.value);
      RemoveNode(node, prevs, Rank(nodes, key));
    }

    method RemoveNode(n: Node<V>, prevs: seq<Node?<V>>, ghost j: nat)
      requires Valid() && 0 < j < |nodes| && n == nodes[j] && PrevsAt(nodes, prevs, j, level)
      modifies this, nodes`next
      ensures Valid() && nodes == Cut(old(nodes), j) && Contents() == old(Contents()) - {n.key}
      ensures forall p :: 0 <= p < |nodes| ==> nodes[p] in old(nodes)
    {
      hide Ordered, Cut, Entries, Linked, Sized, PrevsAt, LastTall;
      BoundedCut(nodes, level, j);
      Unlink(n, prevs, j);
      EntriesCut(nodes, j);
      nodes := Cut(nodes, j);
      LowerLevel();
      size := size - 1;
    }

    method Unlink(n: Node<V>, prevs: seq<Node?<V>>, ghost j: nat)
      requires Valid() && 0 < j < |nodes| && n == nodes[j] && PrevsAt(nodes, prevs, j, level)
      modifies nodes`next
      ensures Sized(Cut(nodes, j))
      ensures forall i :: 0 <= i < MAX_LEVEL ==> Linked(Cut(nodes, j), i)
    {
      hide Ordered, Linked, Sized, LastTall, Cut, Spliced;
      ghost var cut := Cut(nodes, j);
      BoundedCut(nodes, level, j);
      for i := 0 to n.level
        invariant UnlinkedBelow(cut, j, n, i)
      {
        UnlinkLevel(prevs[i], n, i, cut, j);
      }
      UnlinkedAll(cut, j, n);
    }

    method LowerLevel()
      requires Bounded(nodes, level) && nodes[0] == head && Sized(nodes)
      requires forall i :: 0 <= i < MAX_LEVEL ==> Linked(nodes, i)
      modifies this`level
      ensures Shape(nodes, level)
    {
      hide Ordered;
      while level > 1 && head.next[level - 1] == null
        invariant Bounded(nodes, level)
      {
        assert Linked(nodes, level - 1);
        level := level - 1;
      }
      if level > 1 {
        assert Linked(nodes, level - 1);
        assert nodes[FirstTall(nodes, 1, level - 1)].level == level;
      }
    }

    // The walk along one level from a node before the key.
    method SearchLevel(i: nat, from: Node<V>, key: Key, ghost p: nat)
      returns (hit: Node?<V>, prev: Node<V>, ghost q: nat)
      requires Valid() && i < from.level && p < Rank(nodes, key) && nodes[p] == from
      ensures hit != null ==> Present(nodes, key) && hit == nodes[Rank(nodes, key)]
      ensures hit == null ==> q == LastTall(nodes, Rank(nodes, key), i) && prev == nodes[q]
      ensures hit == null && i == 0 ==> !Present(nodes, key)
    {
      hide Lex.Less, Ordered;
      ghost var j := Rank(nodes, key);
      prev, q := from, p;
      assert Linked(nodes, i);
      var curr := prev.next[i];
      while curr != null
        invariant q < j && prev == nodes[q] && i < prev.level
        invariant curr == Successor(nodes, q, i)
        decreases |nodes| - q
      {
        ghost var c := FirstTall(nodes, q + 1, i);
        if curr.key == key {
          RankOf(nodes, c);
          return curr, prev, q;
        }
        Lex.LessTotal(curr.key, key);
        if Lex.Less(key, curr.key) {
          NotBelow(nodes, c, key);
          break;
        }
        prev, q := curr, c;
        curr := curr.next[i];
      }
      hit := null;
    }

    method FindNode(key: Key) returns (node: Node?<V>)
      requires Valid()
      ensures node == if Present(nodes, key) then nodes[Rank(nodes, key)] else null
    {
      hide Lex.Less, Ordered, Linked, Rank;
      var prev := head;
      ghost var p: nat := 0;
      for i := level downto 0
        invariant p < Rank(nodes, key) && prev == nodes[p] && i <= prev.level
        invariant i == 0 ==> !Present(nodes, key)
      {
        if i < prev.level {
          var hit;
          hit, prev, p := SearchLevel(i, prev, key, p);
          if hit != null { return hit; }
        }
      }
      node := null;
    }

    method FindInsertPoint(key: Key) returns (node: Node?<V>, prevs: seq<Node?<V>>)
      requires Valid()
      ensures node == if Present(nodes, key) then nodes[Rank(nodes, key)] else null
      ensures node == null ==> PrevsAt(nodes, prevs, Rank(nodes, key), level)
    {
      hide Lex.Less, Ordered, Linked, Rank;
      prevs := seq(level, _ => null);
      var prev := head;
      ghost var p: nat := 0;
      for i := level downto 0
        invariant p < Rank(nodes, key) && prev == nodes[p] && i <= prev.level
        invariant i == 0 ==> !Present(nodes, key)
        invariant |prevs| == level
        invariant forall l :: i <= l < level ==> prevs[l] == nodes[LastTall(nodes, Rank(nodes, key), l)]
      {
        if i < prev.level {
          var hit;
          hit, prev, p := SearchLevel(i, prev, key, p);
          if hit != null { return hit, []; }
          prevs := prevs[i := prev];
        }
      }
      node := null;
    }

    // The same walk with the test turned round: it never stops at the key.
    method FindPrevNodes(key: Key) returns (prevs: seq<Node?<V>>)
      requires Valid()
      ensures PrevsAt(nodes, prevs, Rank(nodes, key), level)
    {
      hide Lex.Less, Ordered, Linked, Rank;
      prevs := seq(level, _ => null);
      var prev := head;
      ghost var p: nat := 0;
      for i := level downto 0
        invariant p < Rank(nodes, key) && prev == nodes[p] && i <= prev.level
        invariant |prevs| == level
        invariant forall l :: i <= l < level ==> prevs[l] == nodes[LastTall(nodes, Rank(nodes, key), l)]
      {
        if i < prev.level {
          assert Linked(nodes, i);
          prev, p := WalkBelow(i, prev, key, p);
          prevs := prevs[i := prev];
        }
      }
    }

    method WalkBelow(i: nat, from: Node<V>, key: Key, ghost p: nat) returns (prev: Node<V>, ghost q: nat)
      requires Valid() && i < from.level && p < Rank(nodes, key) && nodes[p] == from
      ensures q == LastTall(nodes, Rank(nodes, key), i) && prev == nodes[q]
    {
      hide Lex.Less, Ordered;
      ghost var j := Rank(nodes, key);
      prev, q := from, p;
      assert Linked(nodes, i);
      var curr := prev.next[i];
      while curr != null
        invariant q < j && prev == nodes[q] && i < prev.level
        invariant curr == Successor(nodes, q, i)
        decreases |nodes| - q
      {
        ghost var c := FirstTall(nodes, q + 1, i);
        if !Lex.Less(curr.key, key) { break; }
        prev, q := curr, c;
        curr := curr.next[i];
      }
    }

    method FindRemovePoint(key: Key) returns (node: Node?<V>, prevs: seq<Node?<V>>)
      requires Valid()
      ensures node == if Present(nodes, key) then nodes[Rank(nodes, key)] else null
      ensures node != null ==> PrevsAt(nodes, prevs, Rank(nodes, key), level)
    {
      hide Lex.Less, Ordered;
      prevs := FindPrevNodes(key);
      assert Linked(nodes, 0);
      var prev := prevs[0];
      node := prev.next[0];
      if node == null || node.key != key { return null, []; }
    }

    // From the level above the highest one in use down to the bottom.
    method FindLast() returns (last: Node<V>)
      requires Valid()
      ensures last == nodes[|nodes| - 1]
    {
      hide Lex.Less, Ordered, Linked;
      last := head;
      ghost var p: nat := 0;
      for i := level + 1 downto 0
        invariant p < |nodes| && last == nodes[p]
        invariant if i <= level then i <= last.level else p == 0
        invariant i == 0 ==> p == |nodes| - 1
      {
        if i < last.level {
          last, p := WalkToEnd(i, last, p);
        }
      }
    }

    method WalkToEnd(i: nat, from: Node<V>, ghost p: nat) returns (last: Node<V>, ghost q: nat)
      requires Valid() && i < from.level && p < |nodes| && nodes[p] == from
      ensures q == LastTall(nodes, |nodes|, i) && last == nodes[q]
    {
      hide Lex.Less, Ordered;
      last, q := from, p;
      assert Linked(nodes, i);
      var curr := last.next[i];
      while curr != null
        invariant q < |nodes| && last == nodes[q] && i < last.level
        invariant curr == Successor(nodes, q, i)
        decreases |nodes| - q
      {
        ghost var c := FirstTall(nodes, q + 1, i);
        last, q := curr, c;
        curr := curr.next[i];
      }
    }
  }

  // Every level is the sorted list of the nodes tall enough for it, and the
  // levels from the list's own level upwards are empty.
  lemma LevelsAreSortedLists<V>(list: SkipList<V>, i: nat)
    requires list.Valid() && i < MAX_LEVEL
    ensures var on := TallFrom(list.nodes, 1, i);
            && Chain([list.head] + on, i)
            && (forall a, b :: 0 <= a < b < |on| ==> Lex.ComesFirst(on[a].key, on[b].key))
            && (forall n :: n in on <==> n in list.nodes[1..] && n.level > i)
            && (on == [] <==> i >= list.level || list.size == 0)
  {
    hide Lex.Less, Ordered, Linked, Sized;
    var nodes := list.nodes;
    TallChain(nodes, 0, i);
    TallOrdered(nodes, 1, i);
    TallStarts(nodes, 1, i);
    var on := TallFrom(nodes, 1, i);
    forall n: Node<V> ensures n in on <==> n in nodes[1..] && n.level > i { TallIn(nodes, 1, i, n); }
    forall a, b | 0 <= a < b < |on| ensures Lex.ComesFirst(on[a].key, on[b].key) {
      Lex.LessExact(on[a].key, on[b].key);
    }
  }

  /* ---- the iterator ---- */

  // The nodes at the two ends have the smallest and the largest key.
  lemma EndsOf<V>(nodes: seq<Node<V>>)
    requires Ordered(nodes) && nodes != []
    ensures |nodes| == 1 <==> Entries(nodes) == map[]
    ensures |nodes| > 1 ==>
      var first, last, m := nodes[1].key, nodes[|nodes| - 1].key, Entries(nodes);
      && first in m && last in m
      && (forall k :: k in m && k != first ==> Lex.ComesFirst(first, k))
      && (forall k :: k in m && k != last ==> Lex.ComesFirst(k, last))
  {
    hide Lex.Less, Lex.ComesFirst, Entries;
    EntryCount(nodes);
    EveryEntry(nodes);
    if |nodes| > 1 {
      var first, last := nodes[1].key, nodes[|nodes| - 1].key;
      forall k | k in Entries(nodes)
        ensures (k != first ==> Lex.ComesFirst(first, k)) && (k != last ==> Lex.ComesFirst(k, last))
      {
        Lex.LessExact(first, k);
        Lex.LessExact(k, last);
      }
    }
  }

  class Iterator<V> {
    const list: SkipList<V>
    var node: Node?<V>

    ghost predicate On(p: nat)
      reads this, list
    {
      p < |list.nodes| && node == list.nodes[p]
    }

    constructor (list: SkipList<V>)
      ensures this.list == list && node == null
    {
      this.list, node := list, null;
    }

    method Next(ghost p: nat)
      requires list.Valid() && On(p)
      modifies this`node
      ensures node == At(list.nodes, p + 1)
    {
      assert Linked(list.nodes, 0);
      node := node.next[0];
    }

    // From the first node it lands on the head, and from there it does not move.
    method Prev(ghost p: nat)
      requires list.Valid() && On(p)
      modifies this`node
      ensures On(if p == 0 then 0 else p - 1)
    {
      hide Ordered, Linked, Lex.Less;
      if p > 0 { RankOf(list.nodes, p); } else { RankOfBlank(list.nodes); }
      var prevs := list.FindPrevNodes(node.key);
      node := prevs[0];
    }

    method Seek(target: Key)
      requires list.Valid()
      modifies this`node
      ensures node == if Present(list.nodes, target) then list.nodes[Rank(list.nodes, target)] else null
    {
      hide Ordered, Linked;
      var point, prevs := list.FindRemovePoint(target);
      node := point;
    }

    method SeekToFirst()
      requires list.Valid()
      modifies this`node
      ensures node == At(list.nodes, 1)
      ensures node == null <==> list.Contents() == map[]
      ensures node != null ==> node.key in list.Contents()
      ensures node != null ==> forall k :: k in list.Contents() && k != node.key ==> Lex.ComesFirst(node.key, k)
    {
      hide Lex.Less, Lex.ComesFirst, Ordered, Entries;
      assert Linked(list.nodes, 0);
      node := list.head.next[0];
      EndsOf(list.nodes);
    }

    method SeekToLast()
      requires list.Valid()
      modifies this`node
      ensures node == if list.size == 0 then null else list.nodes[|list.nodes| - 1]
      ensures node == null <==> list.Contents() == map[]
      ensures node != null ==> node.key in list.Contents()
      ensures node != null ==> forall k :: k in list.Contents() && k != node.key ==> Lex.ComesFirst(k, node.key)
    {
      hide Linked, Lex.Less, Lex.ComesFirst, Entries;
      EndsOf(list.nodes);
      node := list.FindLast();
      if node == list.head { node := null; }
    }
  }

  // ListKeys: every key once, in increasing order, each written inside the
  // buffer that was sized beforehand.
  method ListKeys<V>(list: SkipList<V>) returns (keys: seq<Key>)
    requires list.Valid()
    ensures |keys| == |list.Contents()|
    ensures forall k :: k in keys <==> k in list.Contents()
    ensures forall a, b :: 0 <= a < b < |keys| ==> Lex.ComesFirst(keys[a], keys[b])
  {
    hide Linked, Sized, Lex.Less, Lex.ComesFirst, Entries, Ordered;
    keys := seq(list.size, _ => []);
    var iter := new Iterator(list);
    var idx: nat := 0;
    iter.SeekToFirst();
    while iter.node != null
      invariant iter.list == list && idx <= list.size == |keys|
      invariant iter.node == At(list.nodes, idx + 1)
      invariant forall a :: 0 <= a < idx ==> keys[a] == list.nodes[a + 1].key
      decreases list.size - idx
    {
      keys := keys[idx := iter.node.key];
      idx := idx + 1;
      iter.Next(idx);
    }
    AllListed(list.nodes, keys);
  }

  lemma AllListed<V>(nodes: seq<Node<V>>, keys: seq<Key>)
    requires Ordered(nodes) && nodes != [] && |keys| == |nodes| - 1
    requires forall a :: 0 <= a < |keys| ==> keys[a] == nodes[a + 1].key
    ensures |keys| == |Entries(nodes)|
    ensures forall k :: k in keys <==> k in Entries(nodes)
    ensures forall a, b :: 0 <= a < b < |keys| ==> Lex.ComesFirst(keys[a], keys[b])
  {
    hide Lex.Less, Lex.ComesFirst, Entries;
    EntryCount(nodes);
    EveryEntry(nodes);
    assert forall a :: 1 <= a < |nodes| ==> keys[a - 1] == nodes[a].key;
    forall a, b | 0 <= a < b < |keys| ensures Lex.ComesFirst(keys[a], keys[b]) { Lex.LessExact(keys[a], keys[b]); }
  }

  /* ---- whole runs ---- */

  datatype Op<V> = PutOp(key: Key, value: V, height: nat) | RemoveOp(key: Key)

  ghost function MapAfter<V>(ops: seq<Op<V>>): map<Key, V> {
    if ops == [] then map[]
    else
      var m := MapAfter(ops[..|ops| - 1]);
      match ops[|ops| - 1]
      case PutOp(k, v, _) => m[k := v]
      case RemoveOp(k) => m - {k}
  }

  // Any run of insertions and removals, whatever heights are drawn, leaves a
  // list that holds what a map would hold.
  method Run<V>(blank: V, ops: seq<Op<V>>) returns (list: SkipList<V>)
    requires forall op :: op in ops && op.PutOp? ==> 1 <= op.height <= MAX_LEVEL
    ensures list.Valid() && list.Contents() == MapAfter(ops) && list.size == |MapAfter(ops)|
  {
    hide Ordered, Present, Rank, Spliced, Cut, SkipList.Valid, SkipList.Contents;
    list := new SkipList(blank);
    assert ops[..0] == [];
    for t := 0 to |ops|
      invariant fresh(list) && forall p :: 0 <= p < |list.nodes| ==> fresh(list.nodes[p])
      invariant list.Valid() && list.Contents() == MapAfter(ops[..t])
    {
      assert ops[..t + 1][..t] == ops[..t];
      match ops[t] {
        case PutOp(key, value, height) => list.Insert(key, value, height);
        case RemoveOp(key) => var _ := list.Remove(key);
      }
    }
    assert ops[..|ops|] == ops;
    list.SizeCounts();
  }
}
