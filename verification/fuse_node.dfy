/** The node of the path library, and the chained hash tables that hold nodes (fuse/fuse.c). */
module FuseNode {
  import opened Wrappers

  const ROOT_ID: nat := 1
  const UNKNOWN_INO: nat := 0xffff_ffff

  class Node {
    const nodeid: nat
    const generation: nat
    var refctr: int
    var parent: Node?
    var name: Option<string>
    var nlookup: nat
    var treelock: int
    var ticket: int
    var isHidden: bool

    constructor (nodeid: nat, generation: nat)
      ensures this.nodeid == nodeid && this.generation == generation
      ensures refctr == 1 && parent == null && name == None && nlookup == 0
      ensures treelock == 0 && ticket == 0 && !isHidden
    {
      this.nodeid, this.generation := nodeid, generation;
      refctr, parent, name, nlookup := 1, null, None, 0;
      treelock, ticket, isHidden := 0, 0, false;
    }
  }

  /** The k-th node of a chain, or null behind its end. */
  function At(s: seq<Node>, k: nat): Node? {
    if k < |s| then s[k] else null
  }

  /** first is the first node of s, and each node's link leads to the one behind it. */
  ghost predicate Links(s: seq<Node>, first: Node?, next: map<Node, Node?>) {
    first == At(s, 0) && forall k :: 0 <= k < |s| ==> s[k] in next && next[s[k]] == At(s, k + 1)
  }

  ghost predicate Homes(s: seq<Node>, h: nat, home: map<Node, nat>) {
    NoDup(s) && forall k :: 0 <= k < |s| ==> s[k] in home && home[s[k]] == h
  }

  ghost function Cut(s: seq<Node>, k: nat): seq<Node>
    requires k < |s|
  {
    s[..k] + s[k + 1..]
  }

  ghost predicate AllLinked(chain: seq<seq<Node>>, head: seq<Node?>, next: map<Node, Node?>, home: map<Node, nat>) {
    && |chain| == |head|
    && (forall h :: 0 <= h < |chain| ==> Links(chain[h], head[h], next) && Homes(chain[h], h, home))
    && (forall n :: n in home ==> home[n] < |chain| && n in chain[home[n]])
  }

  /** A table of chains, each beginning with its newest node. next is the field of the nodes that links them: name_next
      in the name table, id_next in the id table. */
  class Table {
    const head: array<Node?>
    var next: map<Node, Node?>
    ghost var chain: seq<seq<Node>>    // the nodes of each chain
    ghost var home: map<Node, nat>     // the nodes in the table and the chain each of them is on

    ghost predicate Valid()
      reads this, head
    {
      AllLinked(chain, head[..], next, home)
    }

    constructor (size: nat)
      ensures Valid() && head.Length == size && home == map[] && fresh(head)
    {
      head := new Node?[size](i => null);
      next, chain, home := map[], seq(size, i => []), map[];
    }

    /** What a walk over the chain h needs. */
    lemma Walk(h: nat)
      requires Valid() && h < head.Length
      ensures h < |chain| && Links(chain[h], head[h], next)
      ensures forall k :: 0 <= k < |chain[h]| ==> chain[h][k] in home && home[chain[h][k]] == h
      ensures forall n :: n in home && home[n] == h ==> n in chain[h]
    {
      hide Links;
      assert Homes(chain[h], h, home);
    }

    /** hash_id, and the end of hash_name. */
    method Add(h: nat, node: Node)
      requires Valid() && h < head.Length && node !in home
      modifies this, head
      ensures Valid() && home == old(home)[node := h] && chain == old(chain)[h := [node] + old(chain[h])]
    {
      LinkKeeps(chain, h, head[..], next, home, node);
      next := next[node := head[h]];
      head[h] := node;
      chain := chain[h := [node] + chain[h]];
      home := home[node := h];
    }

    /** The walk over the links of unhash_id and unhash_name; pred is the node whose link leads to p, or null when it
        is the table itself that does. */
    method Remove(h: nat, node: Node) returns (found: bool)
      requires Valid() && h < head.Length
      modifies this, head
      ensures found <==> node in old(home) && old(home)[node] == h
      ensures Valid() && home == old(home) - (if found then {node} else {})
      ensures if found then exists k :: 0 <= k < |old(chain[h])| && old(chain[h])[k] == node &&
                                   chain == old(chain)[h := Cut(old(chain[h]), k)]
              else chain == old(chain)
    {
      hide AllLinked, Cut;
      var pred: Node?, p := null, head[h];
      ghost var k := 0;
      OneChain(chain, h, head[..], next, home, node);
      while p != null
        invariant 0 <= k <= |chain[h]| && p == At(chain[h], k) && node !in chain[h][..k]
        invariant pred == if k == 0 then null else chain[h][k - 1]
        decreases |chain[h]| - k
      {
        assert p == chain[h][k];
        if p == node {
          UnlinkKeeps(chain, h, head[..], next, home, k);
          if pred == null { head[h] := next[p]; } else { next := next[pred := next[p]]; }
          chain := chain[h := Cut(chain[h], k)];
          home := home - {node};
          return true;
        }
        pred := p;
        p := next[p];
        k := k + 1;
      }
      assert chain[h][..k] == chain[h];
      found := false;
    }
  }

  lemma OneChain(chain: seq<seq<Node>>, h: nat, head: seq<Node?>, next: map<Node, Node?>, home: map<Node, nat>,
                 node: Node)
    requires AllLinked(chain, head, next, home) && h < |head|
    ensures h < |chain| == |head| && Links(chain[h], head[h], next)
    ensures node in chain[h] <==> node in home && home[node] == h
  {
    assert Homes(chain[h], h, home);
  }

  /** A node that is put in front of a chain is linked to the node that was first. */
  lemma LinkKeeps(chain: seq<seq<Node>>, h: nat, head: seq<Node?>, next: map<Node, Node?>, home: map<Node, nat>,
                  node: Node)
    requires AllLinked(chain, head, next, home) && h < |chain| && node !in home
    ensures AllLinked(chain[h := [node] + chain[h]], head[h := node], next[node := head[h]], home[node := h])
  {
    var chain', next', home' := chain[h := [node] + chain[h]], next[node := head[h]], home[node := h];
    forall j | 0 <= j < |chain| ensures Links(chain'[j], head[h := node][j], next') && Homes(chain'[j], j, home') {
      assert Links(chain[j], head[j], next) && Homes(chain[j], j, home);
      if j == h { assert forall k :: 0 < k < |chain'[h]| ==> chain'[h][k] == chain[h][k - 1]; }
    }
    forall n | n in home' ensures home'[n] < |chain'| && n in chain'[home'[n]] {
      if n != node {
        var k :| 0 <= k < |chain[home[n]]| && chain[home[n]][k] == n;
        assert if home[n] == h then chain'[h][k + 1] == n else chain'[home[n]][k] == n;
      }
    }
  }

  lemma CutOne(s: seq<Node>, first: Node?, next: map<Node, Node?>, h: nat, home: map<Node, nat>, k: nat)
    requires Links(s, first, next) && Homes(s, h, home) && k < |s|
    ensures Links(Cut(s, k), if k == 0 then next[s[k]] else first, if k == 0 then next
            else next[s[k - 1] := next[s[k]]])
    ensures Homes(Cut(s, k), h, home - {s[k]})
  {}

  lemma CutKeeps(s: seq<Node>, k: nat)
    requires k < |s|
    ensures forall n :: n in s && n != s[k] ==> n in Cut(s, k)
  {
    forall n | n in s && n != s[k] ensures n in Cut(s, k) {
      var i :| 0 <= i < |s| && s[i] == n;
      assert Cut(s, k)[if i < k then i else i - 1] == n;
    }
  }

  lemma CutNone(s: seq<Node>, first: Node?, next: map<Node, Node?>, j: nat, home: map<Node, nat>, node: Node,
                pred: Node?)
    requires Links(s, first, next) && Homes(s, j, home) && (node in home ==> home[node] != j)
    requires node in next && (pred != null ==> pred in home && home[pred] != j)
    ensures Links(s, first, if pred == null then next else next[pred := next[node]]) && Homes(s, j, home - {node})
  {}

  lemma HasHome(s: seq<Node>, first: Node?, next: map<Node, Node?>, h: nat, home: map<Node, nat>, k: nat)
    requires Links(s, first, next) && Homes(s, h, home) && k < |s|
    ensures s[k] in next && s[k] in home && home[s[k]] == h
  {}

  /** Where the k-th node of a chain is passed over, the others stay linked. */
  lemma UnlinkKeeps(chain: seq<seq<Node>>, h: nat, head: seq<Node?>, next: map<Node, Node?>, home: map<Node, nat>,
                    k: nat)
    requires AllLinked(chain, head, next, home) && h < |chain| && k < |chain[h]|
    ensures chain[h][k] in next && chain[h][k] in home
    ensures AllLinked(chain[h := Cut(chain[h], k)], if k == 0 then head[h := next[chain[h][k]]] else head,
                      if k == 0 then next else next[chain[h][k - 1] := next[chain[h][k]]], home - {chain[h][k]})
  {
    hide Links, Homes, Cut;
    var s, node := chain[h], chain[h][k];
    HasHome(s, head[h], next, h, home, k);
    if k > 0 { HasHome(s, head[h], next, h, home, k - 1); }
    CutOne(s, head[h], next, h, home, k);
    CutKeeps(s, k);
    forall j | 0 <= j < |chain| && j != h
      ensures Links(chain[j], head[j], if k == 0 then next else next[s[k - 1] := next[node]])
      ensures Homes(chain[j], j, home - {node})
    {
      CutNone(chain[j], head[j], next, j, home, node, if k == 0 then null else s[k - 1]);
    }
  }
}
