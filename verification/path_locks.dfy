/** What the tree locks of the path library mean: which paths are held, and that each node's treelock
    counts exactly the held paths through it, or is -1 for its one writer. */
module PathLocks {
  import opened Wrappers
  import opened FuseNode
  import opened FuseView

  const ENOENT: int := -2
  const EAGAIN: int := -11
  const ENOMEM: int := -12
  const EBUSY: int := -16

  /** A path between its acquisition and its release: nodes from start up to, not including, the root. */
  datatype Hold = Hold(start: Node, nodes: seq<Node>, wnode: Node?)
  type Held = map<nat, Hold>

  ghost function Readers(held: Held, n: Node): set<nat> {
    set h | h in held && n in held[h].nodes
  }

  ghost function Writers(held: Held, n: Node): set<nat> {
    set h | h in held && held[h].wnode == n
  }

  /** The path is still the way from start to the root: releasing it walks the nodes it locked. */
  ghost predicate HoldOk(v: View, c: Chains, root: Node, d: Hold) {
    && d.start in v && d.start in c && c[d.start] == d.nodes + [root]
    && (d.wnode != null ==> d.wnode in v && d.wnode != root)
  }

  ghost predicate LockOk(v: View, held: Held, n: Node)
    requires n in v
  {
    && (Writers(held, n) != {} ==> |Writers(held, n)| == 1 && Readers(held, n) == {})
    && v[n].treelock == if Writers(held, n) != {} then -1 else |Readers(held, n)|
  }

  ghost predicate LocksOk(v: View, c: Chains, root: Node, held: Held) {
    && (forall h {:trigger held[h]} :: h in held ==> HoldOk(v, c, root, held[h]))
    && (forall n {:trigger LockOk(v, held, n)} :: n in v ==> LockOk(v, held, n))
  }

  // ----- what bars a request

  type Tickets = map<Node, int>

  /** The node is reserved for a request with another ticket. */
  ghost predicate Reserved(given: Tickets, n: Node, ticket: int) {
    n in given && given[n] != 0 && given[n] != ticket
  }

  /** A request with this ticket may lock the nodes for reading. */
  ghost predicate Passable(v: View, given: Tickets, nodes: seq<Node>, ticket: int) {
    forall n :: n in nodes && n in v ==> v[n].treelock != -1 && !Reserved(given, n, ticket)
  }

  /** A request with this ticket may lock the named entry, if there is one, for writing. */
  ghost predicate Claimable(v: View, given: Tickets, dir: nat, name: string, ticket: int) {
    forall n :: n in v && IsEntry(v, n, dir, name) ==> v[n].treelock == 0 && !Reserved(given, n, ticket)
  }

  lemma PassableNext(v: View, given: Tickets, s: seq<Node>, i: nat, ticket: int)
    requires i < |s|
    ensures Passable(v, given, s[..i + 1], ticket) <==>
              Passable(v, given, s[..i], ticket) && Passable(v, given, [s[i]], ticket)
  {
    assert s[..i + 1] == s[..i] + [s[i]];
  }

  /** The tickets once nodes and w are locked: the request has used what was reserved for it. */
  ghost function Used(given: Tickets, nodes: seq<Node>, w: Node?): (t: Tickets)
    ensures t.Keys == given.Keys
  {
    map n | n in given :: if n in nodes || n == w then 0 else given[n]
  }

  /** The tickets once nodes and w are unlocked: they are reserved for this ticket, unless they were before. */
  ghost function Reserve(given: Tickets, nodes: seq<Node>, w: Node?, ticket: int): (t: Tickets)
    ensures t.Keys == given.Keys
  {
    map n | n in given :: if (n in nodes || n == w) && given[n] == 0 then ticket else given[n]
  }

  lemma UsedNext(v: View, given: Tickets, s: seq<Node>, i: nat, w: Node?, k: int, ticket: int)
    requires i < |s| && s[i] in given && s[i] !in s[..i] && s[i] != w && s[i] in v && v[s[i]].treelock == k
    ensures Used(given, s[..i + 1], w) == Used(given, s[..i], w)[s[i] := 0]
    ensures Passable(v, given, [s[i]], ticket) <==> k != -1 && !Reserved(Used(given, s[..i], w), s[i], ticket)
  {}

  lemma ReserveNext(given: Tickets, s: seq<Node>, i: nat, w: Node?, ticket: int)
    requires i < |s| && s[i] in given && s[i] !in s[..i] && s[i] != w
    ensures Reserve(given, s[..i], w, ticket)[s[i]] == given[s[i]]
    ensures Reserve(given, s[..i + 1], w, ticket) ==
            Reserve(given, s[..i], w, ticket)[s[i] := if given[s[i]] == 0 then ticket else given[s[i]]]
  {}

  // ----- chains

  lemma {:induction false} ChainSuffix(v: View, c: Chains, m: Node, i: nat)
    requires TreeOk(v, c) && m in v && i < |c[m]|
    ensures c[m][i] in v && c[c[m][i]] == c[m][i..]
    decreases i
  {
    assert LinkOk(v, c, m);
    if i > 0 {
      var p := v[m].parent;
      ChainSuffix(v, c, p, i - 1);
      assert c[m][i..] == c[p][i - 1..];
    }
  }

  lemma ChainDistinct(v: View, c: Chains, m: Node)
    requires TreeOk(v, c) && m in v
    ensures NoDup(c[m])
  {
    forall i, j | 0 <= i < j < |c[m]| ensures c[m][i] != c[m][j] {
      ChainSuffix(v, c, m, i);
      ChainSuffix(v, c, m, j);
      assert |c[m][i..]| != |c[m][j..]|;
    }
  }

  // ----- acquire and release

  /** v with a read lock more on each of nodes, and w locked for writing. */
  ghost function Locked(v: View, nodes: seq<Node>, w: Node?): (l: View)
    ensures l.Keys == v.Keys
  {
    map m | m in v :: v[m].(treelock := if m == w then -1 else v[m].treelock + if m in nodes then 1 else 0)
  }

  /** v with a read lock fewer on each of nodes, and w unlocked. */
  ghost function Unlocked(v: View, nodes: seq<Node>, w: Node?): (u: View)
    ensures u.Keys == v.Keys
  {
    map m | m in v :: v[m].(treelock := (if m == w then 0 else v[m].treelock) - if m in nodes then 1 else 0)
  }

  /** Along a chain each node's parent is the next one; the last has none. */
  lemma ChainStep(v: View, c: Chains, m: Node, i: nat)
    requires TreeOk(v, c) && m in v && i < |c[m]|
    ensures c[m][i] in v && v[c[m][i]].parent == if i + 1 < |c[m]| then c[m][i + 1] else null
  {
    var n := c[m][i];
    ChainSuffix(v, c, m, i);
    assert LinkOk(v, c, n);
    if v[n].parent != null {
      HeadIsSelf(v, c, v[n].parent);
      assert c[n][1] == v[n].parent;
    }
  }

  lemma HeadIsSelf(v: View, c: Chains, n: Node)
    requires TreeOk(v, c) && n in v
    ensures |c[n]| > 0 && c[n][0] == n
  {
    assert LinkOk(v, c, n);
  }

  lemma ChainLive(v: View, c: Chains, m: Node)
    requires TreeOk(v, c) && m in v
    ensures forall n :: n in c[m] ==> n in v
  {
    forall i | 0 <= i < |c[m]| ensures c[m][i] in v { ChainSuffix(v, c, m, i); }
  }

  /** What is left of the way is without the node just met. */
  lemma LockedKeepsInv(v: View, c: Chains, root: Node, nodes: seq<Node>, w: Node?)
    requires Inv(v, c, root, null)
    requires forall n :: n in v && (n in nodes || n == w) ==> v[n].parent != null
    ensures Inv(Locked(v, nodes, w), c, root, null)
  {
    var l := Locked(v, nodes, w);
    FewerUnique(v, l);
    forall n | n in l ensures RefOk(l, null, n) && NameOk(l, root, n) {
      assert RefOk(v, null, n) && NameOk(v, root, n);
      assert Kids(l, n) == Kids(v, n);
    }
    forall n | n in l ensures LinkOk(l, c, n) {
      assert LinkOk(v, c, n);
    }
  }

  lemma UnlockedKeepsInv(v: View, c: Chains, root: Node, nodes: seq<Node>, w: Node?)
    requires Inv(v, c, root, null)
    requires forall n :: n in v && n in nodes ==> v[n].treelock > 0
    ensures Inv(Unlocked(v, nodes, w), c, root, null)
  {
    var l := Unlocked(v, nodes, w);
    FewerUnique(v, l);
    forall n | n in l ensures RefOk(l, null, n) && NameOk(l, root, n) {
      assert RefOk(v, null, n) && NameOk(v, root, n);
      assert Kids(l, n) == Kids(v, n);
    }
    forall n | n in l ensures LinkOk(l, c, n) {
      assert LinkOk(v, c, n);
    }
  }

  /** nodes are what unlock_path walks on the chain s: up to before end, or to the root if end is null. */
  ghost predicate IsWalk(s: seq<Node>, nodes: seq<Node>, end: Node?, root: Node) {
    && |nodes| < |s| && s[..|nodes|] == nodes && root !in nodes && end !in nodes
    && s[|nodes|] == if end == null then root else end
  }

  lemma WalkStart(v: View, c: Chains, root: Node, start: Node, nodes: seq<Node>, end: Node?)
    requires Inv(v, c, root, null) && start in v && IsWalk(c[start], nodes, end, root)
    ensures |c[start]| > |nodes| && c[start][0] == start
  {
    HeadIsSelf(v, c, start);
  }

  lemma WalkStep(v: View, c: Chains, root: Node, start: Node, nodes: seq<Node>, end: Node?, i: nat)
    requires Inv(v, c, root, null) && start in v && IsWalk(c[start], nodes, end, root)
    requires i <= |nodes| && c[start][i] != end && c[start][i].nodeid != ROOT_ID
    ensures i < |nodes| && c[start][i] == nodes[i] && nodes[i] in v && nodes[i] !in nodes[..i]
    ensures v[nodes[i]].parent == c[start][i + 1]
  {
    ChainStep(v, c, start, i);
    ChainDistinct(v, c, start);
  }

  lemma WalkEnd(v: View, c: Chains, root: Node, start: Node, nodes: seq<Node>, end: Node?, i: nat)
    requires Inv(v, c, root, null) && start in v && IsWalk(c[start], nodes, end, root)
    requires i <= |nodes| && (c[start][i] == end || c[start][i].nodeid == ROOT_ID)
    ensures i == |nodes|
  {
    assert forall j :: 0 <= j < |nodes| ==> c[start][j] == nodes[j] && nodes[j] in nodes;
    ChainStep(v, c, start, i);
    assert Clash(v, c[start][i], root) || c[start][i] == end;
  }

  ghost function WithLock(v: View, n: Node, k: int): (w: View)
    requires n in v
    ensures w.Keys == v.Keys
  {
    v[n := v[n].(treelock := k)]
  }

  /** Locking, or unlocking, one node after another. */
  lemma LockStart(v: View, w: Node?)
    requires w == null || w in v
    ensures Locked(v, [], w) == if w == null then v else WithLock(v, w, -1)
    ensures Unlocked(v, [], w) == if w == null then v else WithLock(v, w, 0)
  {}

  lemma LockStep(v: View, nodes: seq<Node>, i: nat, w: Node?)
    requires i < |nodes| && nodes[i] in v && nodes[i] !in nodes[..i] && nodes[i] != w
    ensures Locked(v, nodes[..i], w)[nodes[i]] == v[nodes[i]]
    ensures Locked(v, nodes[..i + 1], w) == WithLock(Locked(v, nodes[..i], w), nodes[i], v[nodes[i]].treelock + 1)
  {}

  lemma UnlockStep(v: View, nodes: seq<Node>, i: nat, w: Node?)
    requires i < |nodes| && nodes[i] in v && nodes[i] !in nodes[..i] && nodes[i] != w
    ensures Unlocked(v, nodes[..i], w)[nodes[i]] == v[nodes[i]]
    ensures Unlocked(v, nodes[..i + 1], w) == WithLock(Unlocked(v, nodes[..i], w), nodes[i], v[nodes[i]].treelock - 1)
    ensures nodes[..i + 1] == nodes[..i] + [nodes[i]]
  {}

  /** Rolling back: releasing what was just locked restores every treelock. */
  lemma UnlockUndoesLock(v: View, nodes: seq<Node>, w: Node?)
    requires w != null && w in v ==> v[w].treelock == 0 && w !in nodes
    ensures Unlocked(Locked(v, nodes, w), nodes, w) == v
  {}

  lemma AcquireLock(v: View, held: Held, h: nat, d: Hold, n: Node)
    requires n in v && h !in held && LockOk(v, held, n)
    requires d.wnode == n ==> n !in d.nodes && v[n].treelock == 0
    requires n in d.nodes ==> v[n].treelock >= 0
    ensures LockOk(Locked(v, d.nodes, d.wnode), held[h := d], n)
  {
    var e := held[h := d];
    assert h !in Readers(held, n) && h !in Writers(held, n);
    if d.wnode == n {
      assert |Readers(held, n)| == 0;
      assert Readers(e, n) == {};
      assert Writers(e, n) == {h};
    } else {
      assert Writers(e, n) == Writers(held, n);
      if n in d.nodes {
        assert Readers(e, n) == Readers(held, n) + {h};
      } else {
        assert Readers(e, n) == Readers(held, n);
      }
    }
  }

  lemma AcquireKeeps(v: View, c: Chains, root: Node, held: Held, h: nat, d: Hold)
    requires LocksOk(v, c, root, held) && h !in held && HoldOk(v, c, root, d)
    requires d.wnode != null ==> d.wnode !in d.nodes && v[d.wnode].treelock == 0
    requires forall n :: n in d.nodes && n in v ==> v[n].treelock >= 0
    ensures LocksOk(Locked(v, d.nodes, d.wnode), c, root, held[h := d])
  {
    var w := Locked(v, d.nodes, d.wnode);
    forall n | n in w ensures LockOk(w, held[h := d], n) {
      assert LockOk(v, held, n);
      AcquireLock(v, held, h, d, n);
    }
  }

  lemma ReleaseLock(v: View, held: Held, h: nat, n: Node)
    requires n in v && h in held && LockOk(v, held, n)
    ensures held[h].wnode == n ==> v[n].treelock == -1 && n !in held[h].nodes
    ensures n in held[h].nodes ==> v[n].treelock > 0
    ensures LockOk(Unlocked(v, held[h].nodes, held[h].wnode), held - {h}, n)
  {
    var d, e := held[h], held - {h};
    assert Readers(e, n) == Readers(held, n) - {h};
    assert Writers(e, n) == Writers(held, n) - {h};
    assert n in d.nodes ==> h in Readers(held, n);
    if d.wnode == n {
      assert h in Writers(held, n);
      OnlyOne(Writers(held, n), h);
    }
  }

  /** unlock_path meets exactly the locks its acquisition set. */
  lemma ReleaseKeeps(v: View, c: Chains, root: Node, held: Held, h: nat)
    requires LocksOk(v, c, root, held) && h in held
    ensures LocksOk(Unlocked(v, held[h].nodes, held[h].wnode), c, root, held - {h})
    ensures held[h].wnode != null ==> v[held[h].wnode].treelock == -1
    ensures forall n :: n in held[h].nodes && n in v ==> v[n].treelock > 0
  {
    var d, w := held[h], Unlocked(v, held[h].nodes, held[h].wnode);
    forall n | n in v
      ensures LockOk(w, held - {h}, n)
      ensures n == d.wnode ==> v[n].treelock == -1
      ensures n in d.nodes ==> v[n].treelock > 0
    {
      assert LockOk(v, held, n);
      ReleaseLock(v, held, h, n);
    }
  }

  // ----- the table operations and the held paths

  /** A path through n makes its treelock positive. */
  lemma PathLocksNode(v: View, c: Chains, root: Node, held: Held, h: nat, n: Node)
    requires LocksOk(v, c, root, held) && h in held && n in v && n in c[held[h].start] && n != root
    ensures v[n].treelock > 0
  {
    assert h in Readers(held, n);
    assert LockOk(v, held, n);
  }

  lemma DetachKeepsHold(v: View, c: Chains, root: Node, held: Held, x: Node?, n: Node, h: nat)
    requires Inv(v, c, root, x) && LocksOk(v, c, root, held) && (x == null || x == n)
    requires n in v && n != root && v[n].parent != null && v[n].treelock <= 0 && h in held
    ensures HoldOk(Detach(v, n), DetachChains(v, c, n), root, held[h])
  {
    var d := held[h];
    assert LinkOk(v, c, n);
    assert |c[n]| == 1 + |c[v[n].parent]|;
    DetachRecords(v, n, x, root);
    if n in c[d.start] { PathLocksNode(v, c, root, held, h, n); }
    SpliceAbsent(c[d.start], n, []);
    var p := v[n].parent;
    if p == d.start && p != root {
      assert LinkOk(v, c, p);
      PathLocksNode(v, c, root, held, h, p);
    }
    if p == d.wnode { assert h in Writers(held, p) && LockOk(v, held, p); }
  }

  lemma DetachUnlocked(v: View, c: Chains, root: Node, held: Held, x: Node?, n: Node)
    requires Inv(v, c, root, x) && LocksOk(v, c, root, held) && (x == null || x == n)
    requires n in v && n != root && v[n].parent != null && v[n].treelock <= 0
    ensures LocksOk(Detach(v, n), DetachChains(v, c, n), root, held)
  {
    var w, d := Detach(v, n), DetachChains(v, c, n);
    forall h | h in held ensures HoldOk(w, d, root, held[h]) {
      DetachKeepsHold(v, c, root, held, x, n, h);
    }
    assert LinkOk(v, c, n);
    assert |c[n]| == 1 + |c[v[n].parent]|;
    DetachRecords(v, n, x, root);
    forall m | m in w ensures LockOk(w, held, m) {
      assert LockOk(v, held, m);
    }
  }

  lemma {:induction false} DetachedEnds(s: seq<Node>, n: Node)
    requires n in s
    ensures |Splice(s, n, [])| > 0 && Splice(s, n, [])[|Splice(s, n, [])| - 1] == n
  {
    if s[0] != n { DetachedEnds(s[1..], n); }
  }

  lemma DetachLocked(v: View, c: Chains, root: Node, held: Held, n: Node)
    requires LocksOk(v, c, root, held)
    requires n in v && n != root && v[n].parent != null && v[n].treelock > 0
    ensures !LocksOk(Detach(v, n), DetachChains(v, c, n), root, held)
  {
    assert LockOk(v, held, n);
    assert Readers(held, n) != {};
    var h :| h in Readers(held, n);
    assert HoldOk(v, c, root, held[h]);
    DetachedEnds(c[held[h].start], n);
  }

  /** Taking away a name keeps the held paths if and only if no path runs through the node. */
  lemma DetachKeepsLocks(v: View, c: Chains, root: Node, held: Held, x: Node?, n: Node)
    requires Inv(v, c, root, x) && LocksOk(v, c, root, held) && (x == null || x == n)
    requires n in v && n != root && v[n].parent != null
    ensures LocksOk(Detach(v, n), DetachChains(v, c, n), root, held) <==> v[n].treelock <= 0
  {
    if v[n].treelock <= 0 {
      DetachUnlocked(v, c, root, held, x, n);
    } else {
      DetachLocked(v, c, root, held, n);
    }
  }

  lemma AttachKeepsLocks(v: View, c: Chains, root: Node, held: Held, n: Node, dir: Node, name: string)
    requires TreeOk(v, c) && LocksOk(v, c, root, held)
    requires n in v && dir in v && n != root && n != dir && v[n].parent == null
    ensures LocksOk(Attach(v, n, dir, name), AttachChains(c, n, dir), root, held)
  {
    var w, d := Attach(v, n, dir, name), AttachChains(c, n, dir);
    forall h | h in held ensures HoldOk(w, d, root, held[h]) {
      var m := held[h].start;
      assert HoldOk(v, c, root, held[h]);
      if n in c[m] { ChainEnds(v, c, m, n); }
      SpliceAbsent(c[m], n, c[dir]);
    }
    forall m | m in w ensures LockOk(w, held, m) {
      assert LockOk(v, held, m);
    }
  }

  lemma StrangerFree(v: View, c: Chains, root: Node, held: Held, m: Node)
    requires TreeOk(v, c) && LocksOk(v, c, root, held) && m !in v
    ensures Readers(held, m) == {} && Writers(held, m) == {}
  {
    forall h | h in held ensures m !in held[h].nodes && held[h].wnode != m {
      assert HoldOk(v, c, root, held[h]);
      if m in held[h].nodes {
        var i :| 0 <= i < |held[h].nodes| && held[h].nodes[i] == m;
        ChainSuffix(v, c, held[h].start, i);
      }
    }
  }

  /** A node that no path and no writer holds may come and go. */
  lemma ResizeKeepsLocks(v: View, c: Chains, w: View, d: Chains, root: Node, held: Held)
    requires TreeOk(v, c) && LocksOk(v, c, root, held) && w.Keys == d.Keys
    requires forall m :: m in v && m in w ==> w[m].treelock == v[m].treelock && d[m] == c[m]
    requires forall m :: m in w && m !in v ==> w[m].treelock == 0
    requires forall m :: m in v && m !in w ==> v[m].treelock == 0 && m != root
    ensures LocksOk(w, d, root, held)
  {
    forall h | h in held ensures HoldOk(w, d, root, held[h]) {
      var e := held[h];
      assert HoldOk(v, c, root, e);
      assert LinkOk(v, c, e.start) && LockOk(v, held, e.start);
      assert e.start == c[e.start][0];
      assert e.start != root ==> h in Readers(held, e.start);
      if e.wnode != null {
        assert h in Writers(held, e.wnode) && LockOk(v, held, e.wnode);
      }
    }
    forall m | m in w ensures LockOk(w, held, m) {
      if m in v {
        assert LockOk(v, held, m);
      } else {
        StrangerFree(v, c, root, held, m);
      }
    }
  }

  // ----- whole requests: the invariant, and what becomes of the held paths

  lemma FindKeeps(v: View, c: Chains, root: Node, held: Held, n: Node, dir: Node, name: string) returns (d: Chains)
    requires Inv(v, c, root, null) && n !in v && (forall m :: m in v ==> m.nodeid != n.nodeid) && dir in v
    requires GoodName(name) && forall m :: m in v ==> !IsEntry(v, m, dir.nodeid, name)
    ensures Inv(FindNew(v, n, dir, name), d, root, null)
    ensures LocksOk(v, c, root, held) ==> LocksOk(FindNew(v, n, dir, name), d, root, held)
  {
    hide LockOk, HoldOk, RefOk, NameOk, Clash;
    var v1, v2 := Fresh(v, n), Attach(Fresh(v, n), n, dir, name);
    var c1 := FreshKeeps(v, c, n, root);
    forall m | m in v1 ensures !IsEntry(v1, m, dir.nodeid, name) {
      assert m in v ==> !IsEntry(v, m, dir.nodeid, name);
    }
    assert n !in c[dir] by {
      if n in c[dir] {
        var i :| 0 <= i < |c[dir]| && c[dir][i] == n;
        ChainSuffix(v, c, dir, i);
      }
    }
    d := AttachKeeps(v1, c1, n, dir, name, n, root);
    LookupKeeps(v2, d, n, 1, n, root);
    if LocksOk(v, c, root, held) {
      ResizeKeepsLocks(v, c, v1, c1, root, held);
      AttachKeepsLocks(v1, c1, root, held, n, dir, name);
      ResizeKeepsLocks(v2, d, SetLookup(v2, n, 1), d, root, held);
    }
  }

  /** n has been made, as an entry of dir that is looked up once; dir has a reference more. */
  ghost predicate MadeIn(v: View, w: View, n: Node, dir: Node, name: string)
    requires dir in v
  {
    && n !in v && w.Keys == v.Keys + {n} && w[n] == Rec(dir, Some(name), 1, 1, 0)
    && w[dir] == v[dir].(refctr := v[dir].refctr + 1)
    && forall m :: m in v && m != dir ==> w[m] == v[m]
  }

  lemma FindNewIs(v: View, n: Node, dir: Node, name: string)
    requires dir in v && n !in v
    ensures MadeIn(v, FindNew(v, n, dir, name), n, dir, name)
    ensures n in Attach(Fresh(v, n), n, dir, name)
    ensures FindNew(v, n, dir, name) == SetLookup(Attach(Fresh(v, n), n, dir, name), n, 1)
    ensures Attach(Fresh(v, n), n, dir, name)[n].nlookup == 0
  {}

  lemma FindNewEntry(v: View, n: Node, dir: Node, name: string)
    requires dir in v && n != dir
    ensures IsEntry(FindNew(v, n, dir, name), n, dir.nodeid, name)
  {}

  /** find_node, for a name it finds: one lookup more. */
  lemma GainKeeps(v: View, c: Chains, root: Node, held: Held, n: Node)
    requires Inv(v, c, root, null) && n in v && v[n].parent != null
    ensures Inv(SetLookup(v, n, v[n].nlookup + 1), c, root, null)
    ensures LocksOk(v, c, root, held) ==> LocksOk(SetLookup(v, n, v[n].nlookup + 1), c, root, held)
  {
    hide LockOk, HoldOk, NameOk, Clash;
    assert RefOk(v, null, n);
    LookupKeeps(v, c, n, v[n].nlookup + 1, null, root);
    if LocksOk(v, c, root, held) {
      ResizeKeepsLocks(v, c, SetLookup(v, n, v[n].nlookup + 1), c, root, held);
    }
  }

  /** forget_node, when it need not wait. */
  lemma ForgetKeeps(v: View, c: Chains, root: Node, held: Held, n: Node, k: nat) returns (d: Chains)
    requires Inv(v, c, root, null) && n in v && n != root && 0 < k <= v[n].nlookup
    requires k == v[n].nlookup ==> v[n].treelock == 0
    ensures Inv(Forget(v, n, k), d, root, null)
    ensures LocksOk(v, c, root, held) ==> LocksOk(Forget(v, n, k), d, root, held)
  {
    hide LockOk, HoldOk, RefOk, NameOk, Clash;
    if k < v[n].nlookup {
      d := c;
      LookupKeeps(v, c, n, v[n].nlookup - k, null, root);
      if LocksOk(v, c, root, held) {
        ResizeKeepsLocks(v, c, Forget(v, n, k), d, root, held);
      }
    } else {
      var v1 := SetLookup(v, n, 0);
      var v2 := Detach(v1, n);
      LastLookupKeeps(v, c, n, root);
      var c2 := DetachKeeps(v1, c, n, n, root);
      DetachKeepsNode(v1, c, n, n, root, n);
      d := UnrefKeeps(v2, c2, n, root);
      if LocksOk(v, c, root, held) {
        ResizeKeepsLocks(v, c, v1, c, root, held);
        if v1[n].parent != null { DetachKeepsLocks(v1, c, root, held, n, n); }
        ResizeKeepsLocks(v2, c2, Forget(v, n, k), d, root, held);
      }
    }
  }

  /** Forgetting k of more lookups leaves the rest; forgetting the last ones takes the node out of its directory. */
  lemma ForgetIs(v: View, c: Chains, root: Node, n: Node, k: nat)
    requires Inv(v, c, root, null) && n in v && n != root && 0 < k <= v[n].nlookup
    requires k == v[n].nlookup ==> v[n].treelock == 0
    ensures k < v[n].nlookup ==> Forget(v, n, k) == v[n := v[n].(nlookup := v[n].nlookup - k)]
    ensures k == v[n].nlookup ==> Forgotten(v, Forget(v, n, k), n)
  {
    assert RefOk(v, null, n) && LinkOk(v, c, n);
    if k == v[n].nlookup {
      var v1 := SetLookup(v, n, 0);
      LastLookupKeeps(v, c, n, root);
      LastForgotten(v, c, root, n);
    }
  }

  lemma LastForgotten(v: View, c: Chains, root: Node, n: Node)
    requires Inv(v, c, root, null) && n in v && n != root && v[n].nlookup > 0
    requires Inv(SetLookup(v, n, 0), c, root, n)
    ensures Forgotten(v, Unref(Detach(SetLookup(v, n, 0), n), n), n)
  {
    var v1 := SetLookup(v, n, 0);
    var v2 := Detach(v1, n);
    assert RefOk(v, null, n) && LinkOk(v, c, n) && NameOk(v, root, n);
    if v[n].parent != null {
      HeadIsSelf(v, c, v[n].parent);
      assert v[n].parent != n;
      DetachIs(v1, n, n, root);
    } else {
      assert v2 == v1;
    }
    assert v2[n] == v[n].(nlookup := 0, parent := null, name := None) && v[n].refctr == 1 + |Kids(v, n)|;
    assert LeftBy(v, v2, n);
    hide Inv, Detach, RefOk, LinkOk;
    if m :| m in v && v[m].parent == n { assert m in Kids(v, n); }
  }

  /** Lookups may be forgotten one after another or at once. */
  lemma ForgetTwice(v: View, n: Node, j: nat, k: nat)
    requires n in v && 0 < j && 0 < k && j + k <= v[n].nlookup
    ensures Forget(v, n, j).Keys == v.Keys && Forget(v, n, j)[n].nlookup == v[n].nlookup - j
    ensures Forget(Forget(v, n, j), n, k) == Forget(v, n, j + k)
  {
    assert SetLookup(SetLookup(v, n, v[n].nlookup - j), n, 0) == SetLookup(v, n, 0);
  }

  /** A held path fixes the parent of every node it runs through. */
  lemma PathPinsParent(v: View, c: Chains, w: View, d: Chains, root: Node, held: Held, h: nat, n: Node)
    requires TreeOk(v, c) && LocksOk(v, c, root, held) && TreeOk(w, d) && LocksOk(w, d, root, held)
    requires h in held && n in held[h].nodes && n in v && n in w
    ensures v[n].parent == w[n].parent
  {
    var m := held[h].start;
    assert HoldOk(v, c, root, held[h]) && HoldOk(w, d, root, held[h]);
    var i :| 0 <= i < |held[h].nodes| && held[h].nodes[i] == n;
    assert c[m][i] == n && d[m][i] == n && c[m] == d[m];
    ChainSuffix(v, c, m, i);
    ChainSuffix(w, d, m, i);
    assert c[n] == d[n] && |c[n]| > 1;
    assert LinkOk(v, c, n) && LinkOk(w, d, n);
    HeadIsSelf(v, c, v[n].parent);
    HeadIsSelf(w, d, w[n].parent);
    assert c[n][1] == v[n].parent && d[n][1] == w[n].parent;
  }

  lemma {:induction false} SpliceSubset(s: seq<Node>, n: Node, x: Node)
    requires x in Splice(s, n, [])
    ensures x in s
  {
    if s[0] != n && x != s[0] { SpliceSubset(s[1..], n, x); }
  }

  /** remove_node's and rename_node's unhash_name: no entry but n's own goes away. */
  lemma DetachEntries(v: View, c: Chains, n: Node, root: Node, m: Node, dir: nat, name: string)
    requires Inv(v, c, root, null) && n in v && n != root
    ensures IsEntry(Detach(v, n), m, dir, name) <==> IsEntry(v, m, dir, name) && m != n
  {
    if IsEntry(v, m, dir, name) && m != n {
      assert RefOk(v, null, m);
      DetachKeepsNode(v, c, n, null, root, m);
    }
    DetachKeepsNode(v, c, n, null, root, n);
    if v[n].parent != null {
      DetachGuards(v, c, n, null, root);
      DetachRecords(v, n, null, root);
    }
  }

  /** What the kernel guarantees of a rename of n to (dir, name), where target is the node of that name. */
  ghost predicate RenameAllowed(v: View, c: Chains, n: Node, target: Node?, dir: Node, name: string) {
    && n in v && v[n].parent != null && GoodName(name)
    && dir in v && dir in c && v[dir].nlookup > 0 && n !in c[dir]
    && (target != null ==> IsEntry(v, target, dir.nodeid, name))
    && (forall m :: m in v && IsEntry(v, m, dir.nodeid, name) ==> m == n || m == target)
  }

  /** The second half of rename_node: n leaves its directory and enters dir, where its name is free. */
  lemma MoveKeeps(v: View, c: Chains, root: Node, n: Node, dir: Node, name: string) returns (d: Chains)
    requires Inv(v, c, root, null) && n != root && RenameAllowed(v, c, n, null, dir, name)
    ensures n != dir && n in Detach(v, n) && dir in Detach(v, n) && Detach(v, n)[n].parent == null
    ensures Inv(Attach(Detach(v, n), n, dir, name), d, root, null)
    ensures n !in DetachChains(v, c, n)[dir] && d == AttachChains(DetachChains(v, c, n), n, dir)
    ensures Inv(Detach(v, n), DetachChains(v, c, n), root, null)
  {
    hide LockOk, HoldOk, NameOk, Clash, LinkOk;
    HeadIsSelf(v, c, dir);
    var v2 := Detach(v, n);
    var c2 := DetachKeeps(v, c, n, null, root);
    assert RefOk(v, null, n);
    DetachKeepsNode(v, c, n, null, root, n);
    DetachKeepsNode(v, c, n, null, root, dir);
    forall m | m in v2 ensures !IsEntry(v2, m, dir.nodeid, name) {
      DetachEntries(v, c, n, root, m, dir.nodeid, name);
    }
    if n in c2[dir] { SpliceSubset(c[dir], n, n); }
    d := AttachKeeps(v2, c2, n, dir, name, null, root);
  }

  lemma MoveUnlocked(v: View, c: Chains, root: Node, held: Held, n: Node, dir: Node, name: string) returns (d: Chains)
    requires Inv(v, c, root, null) && n != root && RenameAllowed(v, c, n, null, dir, name)
    requires LocksOk(v, c, root, held) && v[n].treelock <= 0
    ensures n in Detach(v, n) && dir in Detach(v, n)
    ensures Inv(Attach(Detach(v, n), n, dir, name), d, root, null)
    ensures LocksOk(Attach(Detach(v, n), n, dir, name), d, root, held)
  {
    hide LockOk, HoldOk, NameOk, Clash, RefOk, LinkOk, Detach, Attach, DetachChains, AttachChains;
    d := MoveKeeps(v, c, root, n, dir, name);
    DetachKeepsLocks(v, c, root, held, null, n);
    AttachKeepsLocks(Detach(v, n), DetachChains(v, c, n), root, held, n, dir, name);
  }

  /** A rename within one directory leaves every path where it was. */
  lemma MoveInPlace(v: View, c: Chains, root: Node, held: Held, n: Node, dir: Node, name: string, d: Chains)
    requires Inv(v, c, root, null) && n != root && n in v && v[n].parent == dir && dir in v && v[dir].nlookup > 0
    requires dir in Detach(v, n) && n in Detach(v, n)
    requires TreeOk(Attach(Detach(v, n), n, dir, name), d) && LocksOk(v, c, root, held)
    ensures LocksOk(Attach(Detach(v, n), n, dir, name), d, root, held)
  {
    hide LockOk, HoldOk, NameOk, Clash, RefOk;
    var w := Attach(Detach(v, n), n, dir, name);
    DetachGuards(v, c, n, null, root);
    DetachRecords(v, n, null, root);
    DetachKeepsNode(v, c, n, null, root, dir);
    forall m | m in w ensures LinkOk(w, c, m) {
      assert LinkOk(v, c, m);
    }
    TreeUnique(w, c, d);
    ResizeKeepsLocks(v, c, w, d, root, held);
  }

  lemma MoveKeepsLocks(v: View, c: Chains, root: Node, held: Held, n: Node, dir: Node, name: string, d: Chains)
    requires Inv(v, c, root, null) && n != root && RenameAllowed(v, c, n, null, dir, name)
    requires dir in Detach(v, n) && n in Detach(v, n)
    requires Inv(Attach(Detach(v, n), n, dir, name), d, root, null) && LocksOk(v, c, root, held)
    requires v[n].treelock <= 0 || v[n].parent == dir
    ensures LocksOk(Attach(Detach(v, n), n, dir, name), d, root, held)
  {
    if v[n].treelock <= 0 {
      var d' := MoveUnlocked(v, c, root, held, n, dir, name);
      TreeUnique(Attach(Detach(v, n), n, dir, name), d, d');
    } else {
      MoveInPlace(v, c, root, held, n, dir, name, d);
    }
  }

  /** rename_node onto the node's own name: the first unhash_name already took it. */
  lemma RenameSelf(v: View, c: Chains, root: Node, n: Node, dir: Node, name: string)
    requires Inv(v, c, root, null) && n in v && n != root && dir in v
    ensures Rename(v, n, n, dir, name) == Rename(v, n, null, dir, name)
  {}

  /** rename_node frees the target's name first; a target is not an ancestor the move needs. */
  lemma RenameTarget(v: View, c: Chains, root: Node, n: Node, target: Node, dir: Node, name: string)
    returns (c1: Chains)
    requires Inv(v, c, root, null) && n != root && target != n && RenameAllowed(v, c, n, target, dir, name)
    ensures target != root && Inv(Detach(v, target), c1, root, null) && c1 == DetachChains(v, c, target)
    ensures RenameAllowed(Detach(v, target), c1, n, null, dir, name)
    ensures Detach(v, target)[n].parent == v[n].parent && Detach(v, target)[n].treelock == v[n].treelock
  {
    hide LockOk, HoldOk, Clash, LinkOk;
    assert NameOk(v, root, root);
    assert RefOk(v, null, n);
    c1 := DetachKeeps(v, c, target, null, root);
    DetachKeepsNode(v, c, target, null, root, n);
    if dir == target { HeadIsSelf(v, c, dir); }
    DetachKeepsNode(v, c, target, null, root, dir);
    forall m | m in Detach(v, target) ensures !IsEntry(Detach(v, target), m, dir.nodeid, name) {
      DetachEntries(v, c, target, root, m, dir.nodeid, name);
      SameEntry(v, c, m, target, dir.nodeid, name);
    }
    if n in c1[dir] { SpliceSubset(c[dir], target, n); }
  }

  /** The name table is a function on (directory id, name). */
  lemma SameEntry(v: View, c: Chains, a: Node, b: Node, dir: nat, name: string)
    requires UniqueOk(v) && TreeOk(v, c)
    ensures IsEntry(v, a, dir, name) && IsEntry(v, b, dir, name) ==> a == b
  {
    if IsEntry(v, a, dir, name) && IsEntry(v, b, dir, name) {
      assert LinkOk(v, c, a) && LinkOk(v, c, b);
      assert Clash(v, v[a].parent, v[b].parent);
      assert Clash(v, a, b);
    }
  }

  /** An entry of a directory is not on the way from the directory to the root. */
  lemma EntryNotAbove(v: View, c: Chains, root: Node, start: Node, w: Node, name: string)
    requires Inv(v, c, root, null) && start in v && IsEntry(v, w, start.nodeid, name)
    ensures w !in c[start]
  {
    assert LinkOk(v, c, w);
    assert Clash(v, v[w].parent, start);
    if w in c[start] {
      var i :| 0 <= i < |c[start]| && c[start][i] == w;
      ChainSuffix(v, c, start, i);
    }
  }

  lemma ClaimOne(v: View, c: Chains, given: Tickets, w: Node, dir: nat, name: string, ticket: int)
    requires UniqueOk(v) && TreeOk(v, c) && IsEntry(v, w, dir, name)
    ensures Claimable(v, given, dir, name, ticket) <==> v[w].treelock == 0 && !Reserved(given, w, ticket)
  {
    forall n | n in v && IsEntry(v, n, dir, name) ensures n == w { SameEntry(v, c, n, w, dir, name); }
  }

  /** When rename_node keeps the held paths. */
  ghost predicate RenameSafe(v: View, n: Node, target: Node?, dir: Node)
    requires n in v && (target == null || target in v)
  {
    && (v[n].treelock <= 0 || v[n].parent == dir)
    && (target == null || target == n || v[target].treelock <= 0)
  }

  lemma RenameKeeps(v: View, c: Chains, root: Node, n: Node, target: Node?, dir: Node, name: string) returns (d: Chains)
    requires Inv(v, c, root, null) && n != root && RenameAllowed(v, c, n, target, dir, name)
    ensures Inv(Rename(v, n, target, dir, name), d, root, null)
  {
    hide LockOk, HoldOk, Clash, LinkOk, RefOk, NameOk;
    if target == null || target == n {
      RenameSelf(v, c, root, n, dir, name);
      d := MoveKeeps(v, c, root, n, dir, name);
    } else {
      var c1 := RenameTarget(v, c, root, n, target, dir, name);
      d := MoveKeeps(Detach(v, target), c1, root, n, dir, name);
    }
  }

  lemma RenameSafeKeeps(v: View, c: Chains, root: Node, held: Held, n: Node, target: Node?, dir: Node, name: string,
                        d: Chains)
    requires Inv(v, c, root, null) && n != root && RenameAllowed(v, c, n, target, dir, name)
    requires Inv(Rename(v, n, target, dir, name), d, root, null)
    requires LocksOk(v, c, root, held) && RenameSafe(v, n, target, dir)
    ensures LocksOk(Rename(v, n, target, dir, name), d, root, held)
  {
    hide LockOk, HoldOk, Clash, LinkOk, RefOk, NameOk;
    if target == null || target == n {
      RenameSelf(v, c, root, n, dir, name);
      var d' := MoveKeeps(v, c, root, n, dir, name);
      MoveKeepsLocks(v, c, root, held, n, dir, name, d);
    } else {
      var c1 := RenameTarget(v, c, root, n, target, dir, name);
      var d' := MoveKeeps(Detach(v, target), c1, root, n, dir, name);
      DetachKeepsLocks(v, c, root, held, null, target);
      MoveKeepsLocks(Detach(v, target), c1, root, held, n, dir, name, d);
    }
  }

  lemma RenameParents(v: View, c: Chains, root: Node, n: Node, target: Node?, dir: Node, name: string)
    requires Inv(v, c, root, null) && n != root && RenameAllowed(v, c, n, target, dir, name)
    ensures var w := Rename(v, n, target, dir, name);
            && n in w && w[n].parent == dir && w[n].name == Some(name)
            && (target != null && target != n ==> target in w && w[target].parent == null)
  {
    hide LockOk, HoldOk, Clash, LinkOk, NameOk;
    assert RefOk(v, null, n);
    if target == null || target == n {
      RenameSelf(v, c, root, n, dir, name);
      var d' := MoveKeeps(v, c, root, n, dir, name);
    } else {
      assert RefOk(v, null, target);
      var c1 := RenameTarget(v, c, root, n, target, dir, name);
      DetachKeepsNode(v, c, target, null, root, target);
      var d' := MoveKeeps(Detach(v, target), c1, root, n, dir, name);
      DetachKeepsNode(Detach(v, target), c1, n, null, root, target);
    }
  }

  lemma RenameUnsafeBreaks(v: View, c: Chains, root: Node, held: Held, n: Node, target: Node?, dir: Node, name: string,
                           d: Chains)
    requires Inv(v, c, root, null) && n != root && RenameAllowed(v, c, n, target, dir, name)
    requires Inv(Rename(v, n, target, dir, name), d, root, null)
    requires LocksOk(v, c, root, held) && LocksOk(Rename(v, n, target, dir, name), d, root, held)
    ensures RenameSafe(v, n, target, dir)
  {
    hide HoldOk, Clash, LinkOk, RefOk, NameOk, Rename;
    RenameParents(v, c, root, n, target, dir, name);
    if v[n].treelock > 0 {
      assert LockOk(v, held, n) && Readers(held, n) != {};
      var h :| h in Readers(held, n);
      PathPinsParent(v, c, Rename(v, n, target, dir, name), d, root, held, h, n);
    }
    if target != null && target != n && v[target].treelock > 0 {
      assert LockOk(v, held, target) && Readers(held, target) != {};
      var h :| h in Readers(held, target);
      PathPinsParent(v, c, Rename(v, n, target, dir, name), d, root, held, h, target);
    }
  }

  /** rename_node keeps the held paths if and only if none runs through the displaced target, and none
      through the moved node unless it stays in its directory. */
  lemma RenameKeepsLocks(v: View, c: Chains, root: Node, held: Held, n: Node, target: Node?, dir: Node, name: string,
                         d: Chains)
    requires Inv(v, c, root, null) && n != root && RenameAllowed(v, c, n, target, dir, name)
    requires Inv(Rename(v, n, target, dir, name), d, root, null) && LocksOk(v, c, root, held)
    ensures LocksOk(Rename(v, n, target, dir, name), d, root, held) <==> RenameSafe(v, n, target, dir)
  {
    if RenameSafe(v, n, target, dir) {
      RenameSafeKeeps(v, c, root, held, n, target, dir, name, d);
    } else if LocksOk(Rename(v, n, target, dir, name), d, root, held) {
      RenameUnsafeBreaks(v, c, root, held, n, target, dir, name, d);
    }
  }

  /** rename_node out of memory for the new name: the invariant is kept, with both names gone. */
  lemma UnnamedKeeps(v: View, c: Chains, root: Node, n: Node, target: Node?, dir: Node, name: string)
    returns (d: Chains)
    requires Inv(v, c, root, null) && n != root && RenameAllowed(v, c, n, target, dir, name)
    ensures Inv(Unnamed(v, n, target), d, root, null)
    ensures n in Unnamed(v, n, target) && Unnamed(v, n, target)[n].parent == null
    ensures target != null ==> target in Unnamed(v, n, target) && Unnamed(v, n, target)[target].parent == null
  {
    hide LockOk, HoldOk, Clash, LinkOk, NameOk;
    assert RefOk(v, null, n);
    if target == null || target == n {
      var d' := MoveKeeps(v, c, root, n, dir, name);
      d := DetachChains(v, c, n);
    } else {
      assert RefOk(v, null, target);
      var c1 := RenameTarget(v, c, root, n, target, dir, name);
      DetachKeepsNode(v, c, target, null, root, target);
      var d' := MoveKeeps(Detach(v, target), c1, root, n, dir, name);
      DetachKeepsNode(Detach(v, target), c1, n, null, root, target);
      d := DetachChains(Detach(v, target), c1, n);
    }
  }

  lemma UnnamedSafeKeeps(v: View, c: Chains, root: Node, held: Held, n: Node, target: Node?, dir: Node, name: string,
                         d: Chains)
    requires Inv(v, c, root, null) && n != root && RenameAllowed(v, c, n, target, dir, name)
    requires Inv(Unnamed(v, n, target), d, root, null) && LocksOk(v, c, root, held)
    requires v[n].treelock <= 0 && (target != null ==> v[target].treelock <= 0)
    ensures LocksOk(Unnamed(v, n, target), d, root, held)
  {
    hide LockOk, HoldOk, Clash, LinkOk, RefOk, NameOk;
    if target == null || target == n {
      var d' := MoveKeeps(v, c, root, n, dir, name);
      DetachKeepsLocks(v, c, root, held, null, n);
      TreeUnique(Detach(v, n), d, DetachChains(v, c, n));
    } else {
      var c1 := RenameTarget(v, c, root, n, target, dir, name);
      var v1 := Detach(v, target);
      var d' := MoveKeeps(v1, c1, root, n, dir, name);
      DetachKeepsLocks(v, c, root, held, null, target);
      DetachKeepsLocks(v1, c1, root, held, null, n);
      TreeUnique(Detach(v1, n), d, DetachChains(v1, c1, n));
    }
  }

  /** Then the held paths survive if and only if none runs through either node, whatever the directories. */
  lemma UnnamedKeepsLocks(v: View, c: Chains, root: Node, held: Held, n: Node, target: Node?, dir: Node, name: string,
                          d: Chains)
    requires Inv(v, c, root, null) && n != root && RenameAllowed(v, c, n, target, dir, name)
    requires Inv(Unnamed(v, n, target), d, root, null) && LocksOk(v, c, root, held)
    ensures LocksOk(Unnamed(v, n, target), d, root, held) <==>
            v[n].treelock <= 0 && (target != null ==> v[target].treelock <= 0)
  {
    hide HoldOk, Clash, LinkOk, RefOk, NameOk, Unnamed;
    if v[n].treelock <= 0 && (target != null ==> v[target].treelock <= 0) {
      UnnamedSafeKeeps(v, c, root, held, n, target, dir, name, d);
    } else if LocksOk(Unnamed(v, n, target), d, root, held) {
      var d' := UnnamedKeeps(v, c, root, n, target, dir, name);
      var m: Node := if v[n].treelock > 0 then n else target;
      assert LockOk(v, held, m) && Readers(held, m) != {};
      var h :| h in Readers(held, m);
      PathPinsParent(v, c, Unnamed(v, n, target), d, root, held, h, m);
    }
  }

  lemma NamedNotRoot(v: View, c: Chains, n: Node, root: Node)
    requires Inv(v, c, root, null) && n in v && v[n].parent != null
    ensures n != root
  {
    assert NameOk(v, root, n);
  }

  lemma UniqueIds(v: View, c: Chains, root: Node)
    requires Inv(v, c, root, null)
    ensures UniqueOk(v)
  {}

  /** Each step of rename_node finds what it needs: no node on the way is freed, and the name is free. */
  lemma RenameStages(v: View, c: Chains, root: Node, n: Node, target: Node?, dir: Node, name: string)
    requires Inv(v, c, root, null) && n != root && RenameAllowed(v, c, n, target, dir, name)
    ensures target != null ==> target in v && target != root
    ensures n in v && dir in v && n != dir && GoodName(name)
    ensures var v1 := if target == null then v else Detach(v, target);
            && n in v1 && n in Detach(v1, n) && dir in Detach(v1, n) && Detach(v1, n)[n].parent == null
            && Rename(v, n, target, dir, name) == Attach(Detach(v1, n), n, dir, name)
            && Unnamed(v, n, target) == Detach(v1, n) && Detach(v1, n)[n].name == None
  {
    hide LockOk, HoldOk, Clash, LinkOk, NameOk;
    HeadIsSelf(v, c, dir);
    if target == null || target == n {
      var d := MoveKeeps(v, c, root, n, dir, name);
      if target == n { DetachKeepsNode(v, c, n, null, root, n); }
    } else {
      var c1 := RenameTarget(v, c, root, n, target, dir, name);
      var d := MoveKeeps(Detach(v, target), c1, root, n, dir, name);
    }
  }

  lemma TakeIs(v: View, c: Chains, root: Node, n: Node)
    requires Inv(v, c, root, null) && n in v && n != root && v[n].parent != null
    ensures Steady(v, Detach(v, n), {n}) && Detached(v, Detach(v, n), n)
  {
    assert LinkOk(v, c, n);
    HeadIsSelf(v, c, v[n].parent);
    DetachIs(v, n, null, root);
    hide Steady, Detached, Detach;
  }

  lemma MoveIs(v: View, c: Chains, root: Node, n: Node, dir: Node, name: string)
    requires Inv(v, c, root, null) && n != root && RenameAllowed(v, c, n, null, dir, name)
    ensures n != dir && n in Detach(v, n) && dir in Detach(v, n)
    ensures Renamed(v, Attach(Detach(v, n), n, dir, name), n, null, dir, Some(name))
    ensures Renamed(v, Detach(v, n), n, null, null, None)
  {
    hide Inv, Detach, Attach, Steady;
    var d := MoveKeeps(v, c, root, n, dir, name);
    TakeIs(v, c, root, n);
    AttachIs(Detach(v, n), n, dir, name);
    SteadyOn(v, Detach(v, n), Attach(Detach(v, n), n, dir, name), {n}, {n});
    assert {n} + {n} == {n};
  }

  /** With a target: it loses its name first. */
  lemma TargetIs(v: View, u: View, w: View, n: Node, target: Node, parent: Node?, name: Option<string>)
    requires target in v && target != n && Steady(v, u, {target}) && Detached(v, u, target)
    requires Renamed(u, w, n, null, parent, name) && target in w
    ensures Renamed(v, w, n, target, parent, name)
  {
    SteadyOn(v, u, w, {target}, {n});
    assert {target} + {n} == {n, target};
  }

  /** What rename_node does to the records, when it has memory for the new name and when it has not. */
  lemma RenameIs(v: View, c: Chains, root: Node, n: Node, target: Node?, dir: Node, name: string)
    requires Inv(v, c, root, null) && n != root && RenameAllowed(v, c, n, target, dir, name)
    ensures n in v && dir in v && (target == null || target in v)
    ensures Renamed(v, Rename(v, n, target, dir, name), n, target, dir, Some(name))
    ensures Renamed(v, Unnamed(v, n, target), n, target, null, None)
  {
    hide Inv, Detach, Attach, Steady, Detached;
    RenameStages(v, c, root, n, target, dir, name);
    if target == null || target == n {
      SelfIs(v, c, root, n, target, dir, name);
    } else {
      RenameParents(v, c, root, n, target, dir, name);
      var d := UnnamedKeeps(v, c, root, n, target, dir, name);
      var c1 := RenameTarget(v, c, root, n, target, dir, name);
      var u := Detach(v, target);
      TakeIs(v, c, root, target);
      MoveIs(u, c1, root, n, dir, name);
      TargetIs(v, u, Attach(Detach(u, n), n, dir, name), n, target, dir, Some(name));
      TargetIs(v, u, Detach(u, n), n, target, null, None);
    }
  }

  lemma SelfIs(v: View, c: Chains, root: Node, n: Node, target: Node?, dir: Node, name: string)
    requires Inv(v, c, root, null) && n != root && RenameAllowed(v, c, n, target, dir, name)
    requires target == null || target == n
    ensures dir in v
    ensures Renamed(v, Rename(v, n, target, dir, name), n, target, dir, Some(name))
    ensures Renamed(v, Unnamed(v, n, target), n, target, null, None)
  {
    RenameSelf(v, c, root, n, dir, name);
    MoveIs(v, c, root, n, dir, name);
    RenameStages(v, c, root, n, null, dir, name);
    UnnamedSelf(v, n);
    hide Inv, Detach, Attach, Steady, Rename, Unnamed;
    assert {n, n} == {n};
  }

  lemma UnnamedSelf(v: View, n: Node)
    requires n in v
    ensures Unnamed(v, n, n) == Unnamed(v, n, null)
  {}

  lemma AllowedByLookup(v: View, c: Chains, root: Node, n: Node, target: Node?, dir: Node, name: string)
    requires Inv(v, c, root, null) && n in v && v[n].parent != null && GoodName(name)
    requires dir in v && v[dir].nlookup > 0 && n !in c[dir]
    requires target != null ==> IsEntry(v, target, dir.nodeid, name)
    requires target == null ==> forall m :: m in v ==> !IsEntry(v, m, dir.nodeid, name)
    ensures RenameAllowed(v, c, n, target, dir, name)
  {
    hide RefOk, NameOk, LinkOk, Clash;
    if target != null {
      forall m | m in v && IsEntry(v, m, dir.nodeid, name) ensures m == target {
        SameEntry(v, c, m, target, dir.nodeid, name);
      }
    }
  }

  // ----- the path string

  ghost function NameIn(v: View, n: Node): string {
    if n in v && v[n].name.Some? then v[n].name.value else ""
  }

  /** "/" and a name for each of nodes, the last one first, in front of tail. */
  ghost function PathText(v: View, nodes: seq<Node>, tail: string): (t: string)
    ensures |t| >= |tail|
  {
    if nodes == [] then tail
    else ['/'] + NameIn(v, nodes[|nodes| - 1]) + PathText(v, nodes[..|nodes| - 1], tail)
  }

  /** What a path ends in before any node is climbed. */
  ghost function Tail(name: Option<string>): string {
    if name.Some? then ['/'] + name.value else ""
  }

  /** What the caller of try_get_path asks for fits a buffer of size limit, terminator included. */
  ghost predicate Fits(v: View, c: Chains, start: Node, name: Option<string>, limit: nat) {
    start in v && start in c && |c[start]| > 0 && |PathText(v, c[start][..|c[start]| - 1], Tail(name))| < limit
  }

  /** The chain of start without its last node, the root. */
  ghost function Below(c: Chains, start: Node): seq<Node>
    requires start in c && |c[start]| > 0
  {
    c[start][..|c[start]| - 1]
  }

  lemma BarredOnTheWay(v: View, given: Tickets, c: Chains, start: Node, i: nat, ticket: int)
    requires start in c && i + 1 < |c[start]| && !Passable(v, given, [c[start][i]], ticket)
    ensures !Passable(v, given, Below(c, start), ticket)
  {
    assert c[start][i] in Below(c, start) by { assert Below(c, start)[i] == c[start][i]; }
  }

  /** Nothing stands in the way of a path from start with this ticket, and of its write lock if it takes one. */
  ghost predicate Unbarred(v: View, given: Tickets, c: Chains, start: Node, name: Option<string>, wr: bool, ticket: int)
    requires start in c && |c[start]| > 0
  {
    && Passable(v, given, Below(c, start), ticket)
    && (wr && name.Some? ==> Claimable(v, given, start.nodeid, name.value, ticket))
  }

  /** Where an attempt that has its write lock, if it takes one, may stop: before the i-th node of the way, which
      bars it, or at the end of a way that does not lead to the root. */
  ghost predicate Stopped(v: View, given: Tickets, c: Chains, root: Node, start: Node, ticket: int, err: int, i: nat)
    requires start in c && |c[start]| > 0
  {
    && i < |c[start]| && Passable(v, given, c[start][..i], ticket)
    && (err == EAGAIN ==> i + 1 < |c[start]| && !Passable(v, given, [c[start][i]], ticket))
    && (err == ENOENT ==> i + 1 == |c[start]| && c[start][i] != root)
  }

  /** How an attempt ends whose entry is w, and whose climb locked i nodes. */
  ghost predicate Ended(v: View, given: Tickets, c: Chains, root: Node, start: Node, name: Option<string>, wr: bool,
                        ticket: int, err: int, w: Node?, i: nat)
    requires start in c && |c[start]| > 0
  {
    && (w != null ==> wr && name.Some? && IsEntry(v, w, start.nodeid, name.value))
    && (w == null && wr && name.Some? && err != ENOMEM ==>
          forall n :: n in v ==> !IsEntry(v, n, start.nodeid, name.value))
    && if err == 0 then Unbarred(v, given, c, start, name, wr, ticket)
       else if wr && name.Some? && !Claimable(v, given, start.nodeid, name.value, ticket) then
         err == EAGAIN || (err == ENOMEM && w == null && i == 0)
       else Stopped(v, given, c, root, start, ticket, err, i)
  }

  /** The tickets after it: on success the nodes locked are reserved no longer. On failure those that had been
      locked are reserved for the request, or the entry that it could not lock is, if it was not reserved. */
  ghost function TicketsAfter(v: View, given: Tickets, c: Chains, start: Node, name: Option<string>, wr: bool,
                              ticket: int, err: int, w: Node?, i: nat): (t: Tickets)
    requires start in c && |c[start]| > 0
    ensures t.Keys == given.Keys
  {
    if err == 0 then Used(given, Below(c, start), w)
    else if wr && name.Some? && !Claimable(v, given, start.nodeid, name.value, ticket) then
      Reserve(given, [], w, ticket)
    else
      var nodes := if i < |c[start]| then c[start][..i] else [];
      Reserve(Used(given, nodes, w), nodes, w, ticket)
  }

  lemma EntryOnly(given: Tickets, w: Node?, ticket: int)
    requires w == null || w in given
    ensures Used(given, [], w) == if w == null then given else given[w := 0]
    ensures Reserve(given, [], w, ticket) ==
            if w == null then given else given[w := if given[w] == 0 then ticket else given[w]]
  {}

  /** The three ways an attempt ends once there was memory to begin it. */
  lemma EntryBarred(v: View, given: Tickets, c: Chains, root: Node, start: Node, name: Option<string>, ticket: int,
                    w: Node?)
    requires start in c && |c[start]| > 0 && name.Some? && !Claimable(v, given, start.nodeid, name.value, ticket)
    requires w != null && IsEntry(v, w, start.nodeid, name.value)
    ensures Ended(v, given, c, root, start, name, true, ticket, EAGAIN, w, 0)
    ensures TicketsAfter(v, given, c, start, name, true, ticket, EAGAIN, w, 0) == Reserve(given, [], w, ticket)
  {}

  ghost predicate HasEntry(v: View, given: Tickets, start: Node, name: Option<string>, wr: bool, ticket: int,
                           w: Node?) {
    if wr && name.Some? then
      && Claimable(v, given, start.nodeid, name.value, ticket)
      && if w == null then forall n :: n in v ==> !IsEntry(v, n, start.nodeid, name.value)
         else IsEntry(v, w, start.nodeid, name.value)
    else w == null
  }

  lemma WayBarred(v: View, given: Tickets, c: Chains, root: Node, start: Node, name: Option<string>, wr: bool,
                  ticket: int, err: int, w: Node?, i: nat)
    requires start in c && |c[start]| > 0 && err != 0 && Stopped(v, given, c, root, start, ticket, err, i)
    requires HasEntry(v, given, start, name, wr, ticket, w)
    ensures Ended(v, given, c, root, start, name, wr, ticket, err, w, i)
    ensures TicketsAfter(v, given, c, start, name, wr, ticket, err, w, i) ==
            Reserve(Used(given, c[start][..i], w), c[start][..i], w, ticket)
  {}

  lemma NothingBarred(v: View, given: Tickets, c: Chains, root: Node, start: Node, name: Option<string>, wr: bool,
                      ticket: int, w: Node?, i: nat)
    requires start in c && |c[start]| > 0 && Passable(v, given, Below(c, start), ticket)
    requires HasEntry(v, given, start, name, wr, ticket, w)
    ensures Ended(v, given, c, root, start, name, wr, ticket, 0, w, i)
    ensures TicketsAfter(v, given, c, start, name, wr, ticket, 0, w, i) == Used(given, Below(c, start), w)
  {}

  /** No memory at all. */
  lemma NotBegun(v: View, given: Tickets, c: Chains, root: Node, start: Node, name: Option<string>, wr: bool,
                 ticket: int)
    requires start in c && |c[start]| > 0
    ensures Ended(v, given, c, root, start, name, wr, ticket, ENOMEM, null, 0)
    ensures TicketsAfter(v, given, c, start, name, wr, ticket, ENOMEM, null, 0) == given
  {}

  lemma UnbarredOrNot(v: View, given: Tickets, c: Chains, root: Node, start: Node, name: Option<string>, wr: bool,
                      ticket: int, err: int, w: Node?, i: nat)
    requires start in c && |c[start]| > 0 && Ended(v, given, c, root, start, name, wr, ticket, err, w, i)
    ensures err == 0 || err == EAGAIN ==> (err == 0 <==> Unbarred(v, given, c, start, name, wr, ticket))
  {
    if err == EAGAIN && Stopped(v, given, c, root, start, ticket, err, i) {
      BarredOnTheWay(v, given, c, start, i, ticket);
    }
  }

  /** A node lets a request with this ticket pass if and only if no writer has it and it is not reserved for another. */
  lemma UnbarredIs(v: View, given: Tickets, c: Chains, start: Node, name: Option<string>, wr: bool, ticket: int)
    requires start in c && |c[start]| > 0 && given.Keys == v.Keys && ticket != 0
    requires forall n :: n in Below(c, start) ==> n in v
    ensures Unbarred(v, given, c, start, name, wr, ticket) <==>
            && (forall n :: n in Below(c, start) ==> v[n].treelock != -1 && (given[n] == 0 || given[n] == ticket))
            && (wr && name.Some? ==> forall n :: n in v && IsEntry(v, n, start.nodeid, name.value) ==>
                  v[n].treelock == 0 && (given[n] == 0 || given[n] == ticket))
  {}

  /** An attempt takes no reservation away from another request, and makes none but for itself: on what it has
      locked, or would have locked before it failed, or on the entry that it could not lock. */
  lemma AttemptIsFair(v: View, given: Tickets, c: Chains, root: Node, start: Node, name: Option<string>, wr: bool,
                      ticket: int, err: int, w: Node?, i: nat)
    requires start in c && |c[start]| > 0
    requires Ended(v, given, c, root, start, name, wr, ticket, err, w, i) && (w != null ==> w in v)
    ensures var after := TicketsAfter(v, given, c, start, name, wr, ticket, err, w, i);
            && (forall n :: n in given && Reserved(given, n, ticket) && n in v ==> after[n] == given[n])
            && (forall n :: n in given && after[n] != given[n] ==> after[n] == if err == 0 then 0 else ticket)
            && (err == 0 ==> forall n :: n in given && (n in Below(c, start) || n == w) ==> after[n] == 0)
            && (err != 0 && i < |c[start]| && HasEntry(v, given, start, name, wr, ticket, w) ==>
                  forall n :: n in given && (n in c[start][..i] || n == w) ==> after[n] == ticket)
            && (err == EAGAIN && w != null && w in given && given[w] == 0 ==> after[w] == ticket)
  {}

  lemma OnWay(v: View, c: Chains, root: Node, held: Held, start: Node)
    requires Inv(v, c, root, null) && LocksOk(v, c, root, held) && start in v && |c[start]| > 0
    ensures forall n :: n in Below(c, start) ==> n in v && v[n].treelock >= -1
  {
    ChainLive(v, c, start);
    forall n | n in Below(c, start) ensures n in v && v[n].treelock >= -1 {
      assert n in c[start] && LockOk(v, held, n);
    }
  }

  /** The entry of one path is not on the way of the other, and not what the other one locks for writing. */
  ghost predicate Compatible(v: View, c: Chains, start1: Node, w1: Node?, start2: Node, name2: Option<string>,
                             wr2: bool)
    requires start1 in c && |c[start1]| > 0 && start2 in c && |c[start2]| > 0
  {
    && (w1 != null ==> w1 !in Below(c, start2))
    && (wr2 && name2.Some? ==> forall n :: n in v && IsEntry(v, n, start2.nodeid, name2.value) ==>
          n != w1 && n !in Below(c, start1))
  }

  /** With one path locked, the second one can be if and only if each could be alone and they are compatible. If
      they are not, the second attempt fails whatever the other requests do. */
  lemma SecondPath(v: View, given: Tickets, c: Chains, root: Node, held: Held, start1: Node, name1: Option<string>,
                   wr1: bool, w1: Node?, start2: Node, name2: Option<string>, wr2: bool, ticket: int)
    requires Inv(v, c, root, null) && LocksOk(v, c, root, held) && start1 in v && start2 in v
    requires start1 in c && |c[start1]| > 0 && start2 in c && |c[start2]| > 0
    requires Unbarred(v, given, c, start1, name1, wr1, ticket)
    requires w1 != null ==> wr1 && name1.Some? && IsEntry(v, w1, start1.nodeid, name1.value)
    ensures var v1, given1 := Locked(v, Below(c, start1), w1), Used(given, Below(c, start1), w1);
            Unbarred(v1, given1, c, start2, name2, wr2, ticket) <==>
            Unbarred(v, given, c, start2, name2, wr2, ticket) && Compatible(v, c, start1, w1, start2, name2, wr2)
  {
    hide TreeOk, LinkOk, HoldOk, RefOk, NameOk, Clash;
    if w1 != null { EntryNotAbove(v, c, root, start1, w1, name1.value); }
    OnWay(v, c, root, held, start1);
    OnWay(v, c, root, held, start2);
    var n1, n2 := Below(c, start1), Below(c, start2);
    var v', given' := Locked(v, n1, w1), Used(given, n1, w1);
    forall n ensures Reserved(given', n, ticket) <==> Reserved(given, n, ticket) {}
    assert Passable(v', given', n2, ticket) <==> Passable(v, given, n2, ticket) && (w1 != null ==> w1 !in n2);
    if wr2 && name2.Some? {
      LockedKeepsEntries(v, n1, w1);
    }
  }

  /** The two paths of a rename of n to (dir, newname), where dir is not below n: the request does not block itself
      unless the target is n itself, or a directory on the way from n's own directory to the root. */
  lemma RenameBlocks(v: View, c: Chains, root: Node, n: Node, olddir: Node, oldname: string, target: Node?, dir: Node,
                     newname: string)
    requires Inv(v, c, root, null) && olddir in v && dir in v && |c[olddir]| > 0 && |c[dir]| > 0
    requires IsEntry(v, n, olddir.nodeid, oldname) && n !in c[dir]
    requires target != null ==> IsEntry(v, target, dir.nodeid, newname)
    requires target == null ==> forall m :: m in v ==> !IsEntry(v, m, dir.nodeid, newname)
    ensures Compatible(v, c, olddir, n, dir, Some(newname), true) <==>
            target == null || (target != n && target !in Below(c, olddir))
  {
    hide RefOk, NameOk, LinkOk, Clash;
    forall m | m in v && target != null && IsEntry(v, m, dir.nodeid, newname) ensures m == target {
      SameEntry(v, c, m, target, dir.nodeid, newname);
    }
  }

  /** A request that blocks itself: with nothing locked and nothing reserved, /d/x may be locked for writing and so
      may /d, but not both for one rename of /d/x to /d. */
  lemma SelfBlocking(root: Node, d: Node, x: Node)
    requires root.nodeid == ROOT_ID && d.nodeid != ROOT_ID && x.nodeid != ROOT_ID && d.nodeid != x.nodeid
    ensures var v := Nested(root, d, x);
            var c := map[root := [root], d := [d, root], x := [x, d, root]];
            && Inv(v, c, root, null) && LocksOk(v, c, root, map[])
            && IsEntry(v, x, d.nodeid, "x") && IsEntry(v, d, root.nodeid, "d") && x !in c[root]
            && Unbarred(v, map[], c, d, Some("x"), true, 1) && Unbarred(v, map[], c, root, Some("d"), true, 1)
            && !Compatible(v, c, d, x, root, Some("d"), true)
  {
    var v := Nested(root, d, x);
    var c := map[root := [root], d := [d, root], x := [x, d, root]];
    NestedIsOk(root, d, x);
    assert Below(c, d) == [d] && Below(c, root) == [];
    hide Inv, LocksOk;
  }

  lemma NestedIsOk(root: Node, d: Node, x: Node)
    requires root.nodeid == ROOT_ID && d.nodeid != ROOT_ID && x.nodeid != ROOT_ID && d.nodeid != x.nodeid
    ensures var v := Nested(root, d, x);
            var c := map[root := [root], d := [d, root], x := [x, d, root]];
            Inv(v, c, root, null) && LocksOk(v, c, root, map[])
  {
    var v := Nested(root, d, x);
    assert Kids(v, root) == {d} && Kids(v, d) == {x} && Kids(v, x) == {};
    hide Kids;
    forall n | n in v ensures LockOk(v, map[], n) {
      assert Readers(map[], n) == {} && Writers(map[], n) == {};
    }
  }

  /** A directory d with a file x. */
  ghost function Nested(root: Node, d: Node, x: Node): View {
    map[root := Rec(null, Some("/"), 1, 2, 0), d := Rec(root, Some("d"), 1, 2, 0), x := Rec(d, Some("x"), 1, 1, 0)]
  }

  /** The first attempt of two has failed, and left the tickets after. */
  ghost predicate FirstFailed(v: View, given: Tickets, c: Chains, root: Node, start: Node, name: Option<string>,
                              wr: bool, ticket: int, err: int, w: Node?, i: nat, after: Tickets)
    requires start in c && |c[start]| > 0
  {
    && err != 0 && Ended(v, given, c, root, start, name, wr, ticket, err, w, i)
    && after == TicketsAfter(v, given, c, start, name, wr, ticket, err, w, i)
  }

  /** The second attempt has ended; if it has failed, the first path has been released again. */
  ghost predicate SecondEnded(v: View, given: Tickets, c: Chains, root: Node, start1: Node, w1: Node?, start2: Node,
                              name2: Option<string>, wr2: bool, ticket: int, err: int, w2: Node?, i: nat,
                              after: Tickets)
    requires start1 in c && |c[start1]| > 0 && start2 in c && |c[start2]| > 0
  {
    var nodes := Below(c, start1);
    var v1, given1 := Locked(v, nodes, w1), Used(given, nodes, w1);
    var after2 := TicketsAfter(v1, given1, c, start2, name2, wr2, ticket, err, w2, i);
    && Ended(v1, given1, c, root, start2, name2, wr2, ticket, err, w2, i)
    && after == if err == 0 then after2 else Reserve(after2, nodes, w1, ticket)
  }

  /** What try_get_path2 knows when it has the first path. */
  lemma SecondAttempt(v: View, given: Tickets, c: Chains, root: Node, held: Held, start1: Node, name1: Option<string>,
                      wr1: bool, w1: Node?, i: nat, start2: Node, name2: Option<string>, wr2: bool, ticket: int)
    requires Inv(v, c, root, null) && LocksOk(v, c, root, held) && start1 in v && start2 in v
    requires start1 in c && |c[start1]| > 0 && start2 in c && |c[start2]| > 0
    requires Ended(v, given, c, root, start1, name1, wr1, ticket, 0, w1, i)
    ensures Ended(v, given, c, root, start1, name1, wr1, ticket, 0, w1, 0)
    ensures Unbarred(v, given, c, start1, name1, wr1, ticket)
    ensures TicketsAfter(v, given, c, start1, name1, wr1, ticket, 0, w1, i) == Used(given, Below(c, start1), w1)
    ensures var v1, given1 := Locked(v, Below(c, start1), w1), Used(given, Below(c, start1), w1);
            Unbarred(v1, given1, c, start2, name2, wr2, ticket) <==>
            Unbarred(v, given, c, start2, name2, wr2, ticket) && Compatible(v, c, start1, w1, start2, name2, wr2)
  {
    hide Inv, LocksOk, Locked, Used;
    SecondPath(v, given, c, root, held, start1, name1, wr1, w1, start2, name2, wr2, ticket);
  }

  /** The text of the path from start below the root. */
  ghost function TextFrom(v: View, c: Chains, start: Node, name: Option<string>): string
    requires start in c && |c[start]| > 0
  {
    Shown(PathText(v, Below(c, start), Tail(name)))
  }

  /** The path as returned: the root's is "/". */
  ghost function Shown(t: string): string { if t == "" then "/" else t }

  /** What the climb from start has done when it stands at the i-th node of the chain. */
  ghost predicate Climbed(v: View, c: Chains, start: Node, i: nat, w: Node?) {
    && start in v && start in c && i < |c[start]|
    && (forall j :: 0 <= j < i ==>
          c[start][j] in v && v[c[start][j]].treelock >= 0 && v[c[start][j]].parent != null && c[start][j] != w)
    && (w != null ==> w in v && v[w].treelock == 0 && v[w].parent != null)
  }

  lemma {:induction false} PathTextGrows(v: View, nodes: seq<Node>, i: nat, tail: string)
    requires i <= |nodes|
    ensures |PathText(v, nodes[..i], tail)| <= |PathText(v, nodes, tail)|
    decreases |nodes|
  {
    if i < |nodes| {
      var most := nodes[..|nodes| - 1];
      assert most[..i] == nodes[..i];
      PathTextGrows(v, most, i, tail);
    } else {
      assert nodes[..i] == nodes;
    }
  }

  lemma PathTextSlash(v: View, nodes: seq<Node>, tail: string)
    requires tail == "" || tail[0] == '/'
    ensures PathText(v, nodes, tail) == "" || PathText(v, nodes, tail)[0] == '/'
  {}

  lemma PathTextStep(v: View, nodes: seq<Node>, i: nat, tail: string)
    requires i < |nodes|
    ensures PathText(v, nodes[..i + 1], tail) == ['/'] + NameIn(v, nodes[i]) + PathText(v, nodes[..i], tail)
  {
    assert nodes[..i + 1][..i] == nodes[..i];
  }

  /** What one turn of try_get_path's loop may rely on at the i-th node of the chain. */
  lemma ClimbStep(v: View, c: Chains, root: Node, held: Held, start: Node, i: nat, w: Node?)
    requires Inv(v, c, root, null) && LocksOk(v, c, root, held) && start in v && i < |c[start]|
    requires w != null ==> w in v
    ensures var n := c[start][i];
            && n in v && n !in c[start][..i] && v[n].parent == (if i + 1 < |c[start]| then c[start][i + 1] else null)
            && (n == w ==> Locked(v, c[start][..i], w)[n].treelock == -1)
            && (n != w ==> Locked(v, c[start][..i], w)[n] == v[n])
            && v[n].treelock >= -1 && Locked(v, c[start][..i], w)[n].parent == v[n].parent
            && Locked(v, c[start][..i], w)[n].name == v[n].name
            && (n.nodeid == ROOT_ID ==> n == root && i + 1 == |c[start]|)
            && (n != root ==> (v[n].name.Some? <==> v[n].parent != null))
            && (v[n].parent != null ==> n != root && GoodName(v[n].name.value))
  {
    hide RefOk;
    var n := c[start][i];
    ChainStep(v, c, start, i);
    ChainDistinct(v, c, start);
    assert LockOk(v, held, n) && NameOk(v, root, n) && NameOk(v, root, root);
    assert Clash(v, n, root) || n.nodeid != ROOT_ID;
  }

  /** The buffer has room for the i-th name, if there is one to add. */
  lemma ClimbRoom(v: View, c: Chains, root: Node, held: Held, start: Node, i: nat, w: Node?, tail: string, limit: nat)
    requires Inv(v, c, root, null) && LocksOk(v, c, root, held) && Climbed(v, c, start, i, w)
    requires |PathText(v, c[start][..|c[start]| - 1], tail)| < limit
    requires c[start][i] in v && c[start][i].nodeid != ROOT_ID && v[c[start][i]].name.Some?
    ensures |PathText(v, c[start][..i], tail)| + |v[c[start][i]].name.value| + 2 <= limit
    ensures PathText(v, c[start][..i + 1], tail) == ['/'] + v[c[start][i]].name.value + PathText(v, c[start][..i], tail)
  {
    hide RefOk, LockOk, Locked;
    ClimbStep(v, c, root, held, start, i, w);
    var nodes := c[start][..|c[start]| - 1];
    assert nodes[..i] == c[start][..i] && nodes[..i + 1] == c[start][..i + 1] && nodes[i] == c[start][i];
    PathTextStep(v, nodes, i, tail);
    PathTextGrows(v, nodes, i + 1, tail);
  }

  lemma PathTextOfNone(v: View, tail: string)
    ensures PathText(v, [], tail) == tail
  {}

  lemma ClimbStart(v: View, c: Chains, root: Node, start: Node, w: Node?)
    requires Inv(v, c, root, null) && Climbed(v, c, start, 0, w)
    ensures UniqueOk(v) && start in v && c[start][0] == start && c[start][..0] == []
  {
    HeadIsSelf(v, c, start);
  }

  /** One turn: from the i-th node of the chain to the next. */
  lemma ClimbOn(v: View, c: Chains, root: Node, held: Held, start: Node, i: nat, w: Node?)
    requires Inv(v, c, root, null) && LocksOk(v, c, root, held) && Climbed(v, c, start, i, w)
    requires c[start][i] in v && v[c[start][i]].parent != null
    requires Locked(v, c[start][..i], w)[c[start][i]].treelock != -1
    ensures i + 1 < |c[start]| && Climbed(v, c, start, i + 1, w)
    ensures Locked(v, c[start][..i + 1], w) ==
            WithLock(Locked(v, c[start][..i], w), c[start][i], v[c[start][i]].treelock + 1)
  {
    ClimbStep(v, c, root, held, start, i, w);
    LockStep(v, c[start], i, w);
  }

  /** The top: the climb has met every node below the root. */
  lemma ClimbTop(v: View, c: Chains, root: Node, held: Held, start: Node, i: nat, w: Node?)
    requires Inv(v, c, root, null) && LocksOk(v, c, root, held) && Climbed(v, c, start, i, w)
    requires c[start][i].nodeid == ROOT_ID
    ensures c[start] == c[start][..i] + [root] && Below(c, start) == c[start][..i] && i == |c[start]| - 1
  {
    hide RefOk, LockOk;
    ClimbStep(v, c, root, held, start, i, w);
  }

  /** The whole path is locked and may be held. */
  lemma ClimbDone(v: View, c: Chains, root: Node, held: Held, start: Node, w: Node?, h: nat)
    requires Inv(v, c, root, null) && LocksOk(v, c, root, held) && h !in held
    requires start in c && |c[start]| > 0 && Climbed(v, c, start, |c[start]| - 1, w)
    requires c[start] == Below(c, start) + [root]
    ensures var l, d := Locked(v, Below(c, start), w), Hold(start, Below(c, start), w);
            Inv(l, c, root, null) && LocksOk(l, c, root, held[h := d])
  {
    hide RefOk, LockOk;
    var nodes := Below(c, start);
    assert forall n :: n in nodes ==> exists j :: 0 <= j < |nodes| && n == c[start][j];
    LockedKeepsInv(v, c, root, nodes, w);
    assert w != root by { assert NameOk(v, root, root); }
    AcquireKeeps(v, c, root, held, h, Hold(start, nodes, w));
  }

  /** Giving up at the i-th node: unlock_path(start, w, that node) is entitled to what it asserts. */
  lemma GiveUp(v: View, c: Chains, root: Node, start: Node, i: nat, w: Node?)
    requires Inv(v, c, root, null) && Climbed(v, c, start, i, w)
    ensures var l := Locked(v, c[start][..i], w);
            && Inv(l, c, root, null) && IsWalk(c[start], c[start][..i], c[start][i], root)
            && (forall n :: n in c[start][..i] ==> n in l && l[n].treelock > 0)
            && (w != null ==> l[w].treelock == -1)
            && Unlocked(l, c[start][..i], w) == v
  {
    hide RefOk;
    var nodes := c[start][..i];
    ChainDistinct(v, c, start);
    assert NameOk(v, root, root);
    assert forall n :: n in nodes ==> exists j :: 0 <= j < i && n == c[start][j];
    LockedKeepsInv(v, c, root, nodes, w);
    UnlockUndoesLock(v, nodes, w);
  }

  lemma ClimbIndex(v: View, c: Chains, start: Node, i: nat, w: Node?)
    requires Climbed(v, c, start, i, w)
    ensures start in v && start in c && i < |c[start]| && (w != null ==> w in v && v[w].treelock == 0)
  {}

  lemma CanClimb(v: View, c: Chains, root: Node, start: Node, w: Node?)
    requires Inv(v, c, root, null) && start in v
    requires w != null ==> w in v && v[w].treelock == 0 && v[w].parent != null
    ensures Climbed(v, c, start, 0, w) && start in c && c[start][..0] == [] && c[start][0] == start
  {
    HeadIsSelf(v, c, start);
  }

  /** A climb that meets a node without a parent, other than the root, is at the end of its chain. */
  lemma ClimbLost(v: View, c: Chains, root: Node, start: Node, i: nat, w: Node?)
    requires Inv(v, c, root, null) && Climbed(v, c, start, i, w)
    requires c[start][i] in v && c[start][i].nodeid != ROOT_ID && v[c[start][i]].parent == null
    ensures i + 1 == |c[start]| && c[start][i] != root
  {
    ChainStep(v, c, start, i);
  }

  lemma LockedKeepsHashed(v: View, nodes: seq<Node>, w: Node?, home: map<Node, nat>)
    requires NamesHashed(v, home)
    ensures NamesHashed(Locked(v, nodes, w), home)
  {
    SameNamesHashed(v, Locked(v, nodes, w), home);
  }

  lemma UnlockedKeepsHashed(v: View, nodes: seq<Node>, w: Node?, home: map<Node, nat>)
    requires NamesHashed(v, home)
    ensures NamesHashed(Unlocked(v, nodes, w), home)
  {
    SameNamesHashed(v, Unlocked(v, nodes, w), home);
  }

  /** A held path may be released as it was acquired. */
  lemma CanRelease(v: View, c: Chains, root: Node, held: Held, h: nat)
    requires Inv(v, c, root, null) && LocksOk(v, c, root, held) && h in held
    ensures var d, u := held[h], Unlocked(v, held[h].nodes, held[h].wnode);
            && d.start in v && d.start in c && IsWalk(c[d.start], d.nodes, null, root)
            && (forall n :: n in d.nodes ==> n in v && v[n].treelock > 0)
            && (d.wnode != null ==> d.wnode in v && d.wnode !in d.nodes && v[d.wnode].treelock == -1)
            && Inv(u, c, root, null) && LocksOk(u, c, root, held - {h})
  {
    hide RefOk, NameOk, LinkOk;
    var d := held[h];
    assert HoldOk(v, c, root, d);
    ChainDistinct(v, c, d.start);
    forall i | 0 <= i < |d.nodes| ensures d.nodes[i] != root {
      assert c[d.start][i] == d.nodes[i] && c[d.start][|d.nodes|] == root;
    }
    assert IsWalk(c[d.start], d.nodes, null, root);
    forall n | n in d.nodes ensures n in v {
      var i :| 0 <= i < |d.nodes| && d.nodes[i] == n;
      ChainSuffix(v, c, d.start, i);
    }
    ReleaseKeeps(v, c, root, held, h);
    UnlockedKeepsInv(v, c, root, d.nodes, d.wnode);
    HeldApart(v, c, root, held, h);
  }

  lemma HeldApart(v: View, c: Chains, root: Node, held: Held, h: nat)
    requires LocksOk(v, c, root, held) && h in held
    ensures held[h].wnode != null ==> held[h].wnode !in held[h].nodes
  {
    var d := held[h];
    assert HoldOk(v, c, root, d);
    if d.wnode != null {
      assert h in Writers(held, d.wnode) && LockOk(v, held, d.wnode);
      assert h !in Readers(held, d.wnode);
    }
  }

  lemma {:induction false} LockedKeepsText(v: View, nodes: seq<Node>, w: Node?, path: seq<Node>, tail: string)
    ensures PathText(Locked(v, nodes, w), path, tail) == PathText(v, path, tail)
    decreases |path|
  {
    if path != [] { LockedKeepsText(v, nodes, w, path[..|path| - 1], tail); }
  }

  lemma LockedKeepsEntries(v: View, nodes: seq<Node>, w: Node?)
    ensures forall n, dir, name :: IsEntry(Locked(v, nodes, w), n, dir, name) <==> IsEntry(v, n, dir, name)
  {}

  lemma LockedKeepsFits(v: View, c: Chains, nodes: seq<Node>, w: Node?, start: Node, name: Option<string>, limit: nat)
    requires Fits(v, c, start, name, limit)
    ensures start in c && |c[start]| > 0 && Fits(Locked(v, nodes, w), c, start, name, limit)
    ensures TextFrom(Locked(v, nodes, w), c, start, name) == TextFrom(v, c, start, name)
  {
    LockedKeepsText(v, nodes, w, c[start][..|c[start]| - 1], Tail(name));
  }

  lemma FitsInChains(v: View, c: Chains, start: Node, name: Option<string>, limit: nat)
    requires Fits(v, c, start, name, limit)
    ensures start in c && |c[start]| > 0
  {}
}
