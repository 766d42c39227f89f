/** The intrusive circular doubly linked list behind the LRU cache. */
module LruRing {
  import opened Registry

  /** `DataManagerNode`: the record of one uploaded file, and its links while it is cached. */
  class Node {
    const filename: string
    const info: Info
    var preContent: string
    var next: Node?
    var prev: Node?

    constructor (filename: string, info: Info)
      ensures this.filename == filename && this.info == info
      ensures next == null && prev == null && preContent == ""
    {
      this.filename, this.info := filename, info;
      preContent, next, prev := "", null, null;
    }
  }

  /** `DataManagerList`: a ring closed by a guard node. `nodes` is the ring read from the head,
      and `contents` what it says: names and cached contents, most recently used first. */
  class NodeList {
    var size: nat
    const capacity: nat
    const guard: Node
    ghost var nodes: seq<Node>
    ghost var contents: seq<Cached>

    /** The node at position `i` of a ring `s` closed by `g`: both ends are the guard. */
    static ghost function At(g: Node, s: seq<Node>, i: int): Node {
      if 0 <= i < |s| then s[i] else g
    }

    static ghost predicate Apart(s: seq<Node>, i: int, j: int)
      requires 0 <= i < |s| && 0 <= j < |s|
    {
      s[i] != s[j]
    }

    static ghost predicate Distinct(s: seq<Node>) {
      forall i, j {:trigger Apart(s, i, j)} :: 0 <= i < |s| && 0 <= j < |s| && i != j ==> Apart(s, i, j)
    }

    static lemma PairwiseApart(s: seq<Node>)
      requires Distinct(s)
      ensures forall i, j :: 0 <= i < j < |s| ==> s[i] != s[j]
    {
      forall i, j | 0 <= i < j < |s|
        ensures s[i] != s[j]
      {
        assert Apart(s, i, j);
      }
    }

    static lemma DistinctCons(n: Node, s: seq<Node>)
      requires Distinct(s) && n !in s
      ensures Distinct([n] + s)
    {
      PairwiseApart(s);
    }

    /** Following `next` from the guard visits `s` in order, and `prev` visits it backwards. */
    static ghost predicate Linked(g: Node, s: seq<Node>)
      reads g, s
    {
      && g.next == At(g, s, 0) && g.prev == At(g, s, |s| - 1)
      && (forall i {:trigger s[i].next} :: 0 <= i < |s| ==> s[i].next == At(g, s, i + 1))
      && (forall i {:trigger s[i].prev} :: 0 <= i < |s| ==> s[i].prev == At(g, s, i - 1))
    }

    /** Each entry of `cs`, other than the one at `except`, is what the node at its place says. */
    static ghost predicate Says(s: seq<Node>, cs: seq<Cached>, except: int)
      reads s
    {
      && |cs| == |s|
      && forall i {:trigger cs[i]} :: 0 <= i < |cs| && i != except ==>
           cs[i] == Cached(s[i].filename, s[i].preContent)
    }

    static lemma SaysFront(s: seq<Node>, cs: seq<Cached>, k: int)
      requires 0 <= k < |s| && Says(s, cs, -1)
      ensures Says(ToFront(s, k), ToFront(cs, k), -1)
    {
    }

    static lemma SaysRemoved(s: seq<Node>, cs: seq<Cached>, k: int)
      requires 0 <= k < |s| && Says(s, cs, k)
      ensures Says(RemoveAt(s, k), RemoveAt(cs, k), -1)
    {
    }

    /** The pointers form one ring through the guard and `nodes`, each node once. */
    ghost predicate Ring()
      reads this, guard, nodes
    {
      && guard !in nodes && Distinct(nodes) && Linked(guard, nodes)
      && size == |nodes| && Says(nodes, contents, -1)
    }

    ghost predicate Valid()
      reads this, guard, nodes
    {
      Ring() && size <= capacity
    }

    /** A node outside the ring has both pointers null. */
    ghost predicate Unlinked(node: Node)
      reads node
    {
      node.next == null && node.prev == null
    }

    ghost predicate Known(node: Node)
      reads this, node
    {
      node != guard && (node in nodes || Unlinked(node))
    }

    lemma LinkedExactlyInRing(node: Node)
      requires Ring() && Known(node)
      ensures node in nodes <==> node.next != null
      ensures node in nodes <==> node.prev != null
    {
      if node in nodes {
        var k := IndexOf(nodes, node);
        assert nodes[k].next != null && nodes[k].prev != null;
      }
    }

    constructor (capacity: nat)
      ensures Valid() && nodes == [] && contents == [] && this.capacity == capacity
      ensures fresh(guard)
    {
      this.capacity := capacity;
      size := 0;
      guard := new Node("", Info(0, 0));
      nodes, contents := [], [];
      new;
      guard.prev := guard;
      guard.next := guard;
    }

    static ghost function IndexOf(s: seq<Node>, node: Node): (k: nat)
      requires node in s
      ensures k < |s| && s[k] == node
    {
      if s[0] == node then 0 else 1 + IndexOf(s[1..], node)
    }

    static lemma RemovedMembers(s: seq<Node>, k: nat)
      requires k < |s| && Distinct(s)
      ensures forall n :: n in RemoveAt(s, k) <==> n in s && n != s[k]
      ensures Distinct(RemoveAt(s, k))
    {
      PairwiseApart(s);
      forall n | n in s && n != s[k]
        ensures n in RemoveAt(s, k)
      {
        var i :| 0 <= i < |s| && s[i] == n;
        assert RemoveAt(s, k)[if i < k then i else i - 1] == n;
      }
    }

    /** Every node but `s[k]` is linked as if `s[k]` were not there. */
    static ghost predicate LinkedPast(g: Node, s: seq<Node>, k: int)
      requires 0 <= k < |s|
      reads g, s
    {
      && g.next == At(g, s, if k == 0 then 1 else 0)
      && g.prev == At(g, s, if k == |s| - 1 then k - 1 else |s| - 1)
      && (forall i {:trigger s[i].next} :: 0 <= i < |s| && i != k ==>
            s[i].next == At(g, s, if i + 1 == k then i + 2 else i + 1))
      && (forall i {:trigger s[i].prev} :: 0 <= i < |s| && i != k ==>
            s[i].prev == At(g, s, if i - 1 == k then i - 2 else i - 1))
    }

    static lemma LinkedPastIsRemoved(g: Node, s: seq<Node>, k: int)
      requires 0 <= k < |s| && LinkedPast(g, s, k)
      ensures Linked(g, RemoveAt(s, k))
    {
      var r := RemoveAt(s, k);
      assert r == s[..k] + s[k + 1..];
      forall i {:trigger r[i].next} {:trigger r[i].prev} | 0 <= i < |r|
        ensures r[i].next == At(g, r, i + 1) && r[i].prev == At(g, r, i - 1)
      {
        if i < k {
          assert r[i] == s[i] && s[i].next == At(g, s, if i + 1 == k then i + 2 else i + 1);
        } else {
          assert r[i] == s[i + 1] && s[i + 1].prev == At(g, s, if i == k then i - 1 else i);
        }
      }
    }

    /** The two pointer writes that `MoveToHead` and `Remove` both start with. */
    method Bypass(node: Node, ghost k: int)
      requires Ring() && 0 <= k < |nodes| && nodes[k] == node
      requires node.next != null && node.prev != null
      modifies guard, nodes
      ensures Linked(guard, RemoveAt(nodes, k))
      ensures forall n :: n in nodes ==> n.preContent == old(n.preContent)
      ensures node.next == old(node.next) && node.prev == old(node.prev)
    {
      PairwiseApart(nodes);
      assert node.prev == At(guard, nodes, k - 1) && node.next == At(guard, nodes, k + 1);
      node.prev.next := node.next;
      node.next.prev := node.prev;
      LinkedPastIsRemoved(guard, nodes, k);
    }

    /** What `Remove` does to the node it takes out. */
    method Detach(node: Node, ghost s: seq<Node>)
      requires Linked(guard, s) && node != guard && node !in s
      modifies node
      ensures Linked(guard, s)
      ensures Unlinked(node) && node.preContent == ""
    {
      node.preContent := "";
      node.prev := null;
      node.next := null;
    }

    /** The four pointer writes that `MoveToHead` and `PushToHead` both end with. */
    method LinkAfterGuard(node: Node, ghost s: seq<Node>)
      requires guard !in s && Distinct(s) && Linked(guard, s)
      requires node != guard && node !in s
      modifies guard, s, node
      ensures Linked(guard, [node] + s)
      ensures node.preContent == old(node.preContent)
      ensures forall n :: n in s ==> n.preContent == old(n.preContent)
    {
      PairwiseApart(s);
      assert guard.next == At(guard, s, 0) && guard.prev == At(guard, s, |s| - 1);
      node.next := guard.next;
      node.prev := guard;
      guard.next.prev := node;
      guard.next := node;
      ghost var r := [node] + s;
      assert forall i :: 1 <= i < |r| ==> r[i] == s[i - 1];
    }

    /** The pointer writes of `MoveToHead`. */
    method Relink(node: Node, ghost k: int)
      requires Ring() && 0 <= k < |nodes| && nodes[k] == node
      requires node.next != null && node.prev != null
      modifies guard, nodes
      ensures Linked(guard, ToFront(nodes, k)) && Distinct(ToFront(nodes, k))
      ensures forall n :: n in ToFront(nodes, k) <==> n in nodes
      ensures Says(nodes, contents, -1)
    {
      ghost var rest := RemoveAt(nodes, k);
      RemovedMembers(nodes, k);
      Bypass(node, k);
      LinkAfterGuard(node, rest);
      DistinctCons(node, rest);
    }

    method MoveToHead(node: Node?) returns (ok: bool)
      requires Ring() && (node == null || Known(node))
      modifies this, guard, nodes
      ensures Ring() && size == old(size)
      ensures ok == (node != null && node in old(nodes))
      ensures nodes == if ok then ToFront(old(nodes), IndexOf(old(nodes), node)) else old(nodes)
      ensures contents == if ok then ToFront(old(contents), IndexOf(old(nodes), node)) else old(contents)
      ensures forall n :: n in nodes <==> n in old(nodes)
    {
      if node == null {
        return false;
      }
      LinkedExactlyInRing(node);
      if node.next == null || node.prev == null {
        return false;
      }
      ghost var k := IndexOf(nodes, node);
      Relink(node, k);
      SaysFront(nodes, contents, k);
      nodes := ToFront(nodes, k);
      contents := ToFront(contents, k);
      return true;
    }

    /** The writes of `Remove` other than the size. */
    method Unhook(node: Node, ghost k: int)
      requires Ring() && 0 <= k < |nodes| && nodes[k] == node
      requires node.next != null && node.prev != null
      modifies guard, nodes
      ensures Linked(guard, RemoveAt(nodes, k)) && Distinct(RemoveAt(nodes, k))
      ensures forall n :: n in RemoveAt(nodes, k) <==> n in nodes && n != node
      ensures Says(nodes, contents, k)
      ensures Unlinked(node) && node.preContent == ""
    {
      PairwiseApart(nodes);
      RemovedMembers(nodes, k);
      Bypass(node, k);
      Detach(node, RemoveAt(nodes, k));
    }

    method Remove(node: Node?) returns (ok: bool)
      requires Ring() && (node == null || Known(node))
      modifies this, guard, nodes
      ensures Ring() && ok == (node != null) && (ok ==> Unlinked(node))
      ensures nodes == if ok && node in old(nodes) then RemoveAt(old(nodes), IndexOf(old(nodes), node)) else old(nodes)
      ensures contents
           == if ok && node in old(nodes) then RemoveAt(old(contents), IndexOf(old(nodes), node)) else old(contents)
      ensures forall n :: n in nodes <==> n in old(nodes) && n != node
      ensures ok && node in old(nodes) ==> node.preContent == ""
    {
      if node == null {
        return false;
      }
      LinkedExactlyInRing(node);
      if node.next == null || node.prev == null {
        return true;
      }
      ghost var k := IndexOf(nodes, node);
      Unhook(node, k);
      SaysRemoved(nodes, contents, k);
      nodes := RemoveAt(nodes, k);
      contents := RemoveAt(contents, k);
      size := size - 1;
      return true;
    }

    method RemoveTail() returns (ok: bool)
      requires Ring()
      modifies this, guard, nodes
      ensures Ring()
      ensures ok == (old(nodes) != [])
      ensures nodes == if ok then old(nodes)[..|old(nodes)| - 1] else []
      ensures |old(contents)| == |old(nodes)|
      ensures contents == if ok then old(contents)[..|old(contents)| - 1] else []
      ensures ok ==> Unlinked(old(nodes[|nodes| - 1])) && old(nodes[|nodes| - 1]).preContent == ""
    {
      if guard.prev == guard {
        assert nodes == [];
        return false;
      }
      ok := Remove(guard.prev);
    }

    /** `PushToHead` before it looks at the capacity. */
    method AddFirst(node: Node, content: string)
      requires Ring() && node != guard && node !in nodes
      modifies this, guard, nodes, node
      ensures Ring()
      ensures nodes == [node] + old(nodes)
      ensures contents == [Cached(node.filename, content)] + old(contents)
    {
      node.preContent := content;
      LinkAfterGuard(node, nodes);
      DistinctCons(node, nodes);
      nodes := [node] + nodes;
      contents := [Cached(node.filename, content)] + contents;
      size := size + 1;
    }

    /** `PushToHead` when it looks at the capacity. */
    method EvictSurplus()
      requires Ring() && size <= capacity + 1
      modifies this, guard, nodes
      ensures Valid()
      ensures nodes == Trimmed(old(nodes), capacity) && contents == Trimmed(old(contents), capacity)
      ensures forall n :: n in nodes ==> n in old(nodes)
      ensures forall n :: n in old(nodes) && n !in nodes ==> Unlinked(n) && n.preContent == ""
    {
      if size > capacity {
        ghost var pushed := nodes;
        var _ := RemoveTail();
        assert pushed == nodes + [pushed[|pushed| - 1]];
      }
    }

    method PushToHead(node: Node?, content: string) returns (ok: bool)
      requires Valid() && (node == null || Known(node))
      modifies this, guard, nodes, node
      ensures Valid()
      ensures ok == (node != null && node !in old(nodes))
      ensures nodes == if ok then Trimmed([node] + old(nodes), capacity) else old(nodes)
      ensures contents
           == if ok then Trimmed([Cached(node.filename, content)] + old(contents), capacity) else old(contents)
      ensures ok ==> forall n :: n in nodes ==> n == node || n in old(nodes)
      ensures ok ==> forall n :: n in [node] + old(nodes) && n !in nodes ==> Unlinked(n) && n.preContent == ""
    {
      if node == null {
        return false;
      }
      LinkedExactlyInRing(node);
      if node.next != null || node.prev != null {
        return false;
      }
      AddFirst(node, content);
      EvictSurplus();
      return true;
    }
  }
}
