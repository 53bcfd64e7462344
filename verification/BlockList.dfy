/** The singly linked lists of block ranges in diskcopy.c. */
module BlockList {

  datatype Range = Range(lba: nat, count: nat)

  predicate InRange(r: Range, x: nat) {
    r.lba <= x < r.lba + r.count
  }

  /** Some range of the list has this LBA. */
  ghost predicate Listed(ranges: seq<Range>, x: nat) {
    exists k :: 0 <= k < |ranges| && InRange(ranges[k], x)
  }

  class Node {
    const range: Range
    var next: Node?

    constructor (r: Range)
      ensures range == r && next == null
    {
      range := r;
      next := null;
    }
  }

  class List {
    var head: Node?
    ghost var nodes: seq<Node>

    ghost predicate Valid()
      reads this, nodes
    {
      && head == At(0)
      && (forall k {:trigger nodes[k].next} :: 0 <= k < |nodes| ==> nodes[k].next == At(k + 1))
      && (forall j, k :: 0 <= j < k < |nodes| ==> nodes[j] != nodes[k])
    }

    /** The node at a place; null after the last. */
    ghost function At(k: nat): Node?
      reads this
    {
      if k < |nodes| then nodes[k] else null
    }

    ghost function Ranges(): (r: seq<Range>)
      reads this
      ensures |r| == |nodes| && forall k :: 0 <= k < |r| ==> r[k] == nodes[k].range
    {
      seq(|nodes|, k requires 0 <= k < |nodes| reads this => nodes[k].range)
    }

    constructor ()
      ensures Valid() && Ranges() == [] && fresh(nodes)
    {
      head := null;
      nodes := [];
    }

    /** add(): a new node at the end. */
    method Add(r: Range)
      requires Valid()
      modifies this, nodes
      ensures Valid() && Ranges() == old(Ranges()) + [r]
      ensures fresh(set n | n in nodes && n !in old(nodes))
    {
      var node := new Node(r);
      if head == null {
        head := node;
        nodes := [node];
        return;
      }
      var tmp: Node := head;
      ghost var k: nat := 0;
      while tmp.next != null
        invariant k < |nodes| && tmp == nodes[k]
        decreases |nodes| - k
      {
        tmp := tmp.next;
        k := k + 1;
      }
      tmp.next := node;
      nodes := nodes + [node];
    }

    /** clean(): every node is freed. */
    method Clean()
      requires Valid()
      modifies this
      ensures Valid() && Ranges() == [] && nodes == []
    {
      var tmp := head;
      ghost var k: nat := 0;
      while tmp != null
        invariant k <= |nodes| && tmp == At(k) && Valid()
        decreases |nodes| - k
      {
        tmp := tmp.next;
        k := k + 1;
      }
      head := null;
      nodes := [];
    }
  }
}
