/** What the node table means: the records of the live nodes as a value, what each table operation
    does to it, and the invariant all of them keep. */
module FuseView {
  import opened Wrappers
  import opened NameHash
  import opened FuseNode

  datatype Rec = Rec(parent: Node?, name: Option<string>, nlookup: nat, refctr: int, treelock: int)
  type View = map<Node, Rec>
  type Chains = map<Node, seq<Node>>

  /** A directory-entry name as the kernel sends it. */
  ghost predicate GoodName(s: string) {
    s != "" && forall i :: 0 <= i < |s| ==> 0 < s[i] as int < 256 && s[i] != '/'
  }

  // ----- the invariant

  ghost function Kids(v: View, n: Node): set<Node> {
    set m | m in v && v[m].parent == n
  }

  /** n's references are its own lookups and its named children. x, if not null, carries one
      reference more: a lookup that is being given up. */
  ghost predicate RefOk(v: View, x: Node?, n: Node)
    requires n in v
  {
    && v[n].refctr == (if v[n].nlookup > 0 then 1 else 0) + |Kids(v, n)| + (if n == x then 1 else 0)
    && v[n].refctr > 0
    && (v[n].parent != null && n != x ==> v[n].nlookup > 0)
    && (v[n].treelock != 0 ==> v[n].nlookup > 0)
  }

  ghost predicate RefsOk(v: View, x: Node?) {
    forall n {:trigger RefOk(v, x, n)} :: n in v ==> RefOk(v, x, n)
  }

  /** The root is named "/" and looked up for ever; any other node is named just when it has a parent. */
  ghost predicate NameOk(v: View, root: Node, n: Node)
    requires n in v
  {
    if n == root then v[n].parent == null && v[n].name == Some("/") && v[n].nlookup > 0
    else (v[n].name.Some? <==> v[n].parent != null) && (v[n].name.Some? ==> GoodName(v[n].name.value))
  }

  ghost predicate NamesOk(v: View, root: Node) {
    root in v && root.nodeid == ROOT_ID && forall n {:trigger NameOk(v, root, n)} :: n in v ==> NameOk(v, root, n)
  }

  /** a and b have the same id, or the same name in the same directory. */
  ghost predicate Clash(v: View, a: Node, b: Node)
    requires a in v && b in v
  {
    a.nodeid == b.nodeid || (v[a].parent != null && v[a].parent == v[b].parent && v[a].name == v[b].name)
  }

  /** Names are unique within a directory, ids overall. */
  ghost predicate UniqueOk(v: View) {
    forall a, b {:trigger Clash(v, a, b)} :: a in v && b in v && Clash(v, a, b) ==> a == b
  }

  /** n's parent is live, and n's chain is n followed by its parent's. */
  ghost predicate LinkOk(v: View, c: Chains, n: Node)
    requires n in v && c.Keys == v.Keys
  {
    if v[n].parent == null then c[n] == [n]
    else v[n].parent in v && c[n] == [n] + c[v[n].parent]
  }

  /** Parents are live and the parent links acyclic: the chains are their finite unfoldings. */
  ghost predicate TreeOk(v: View, c: Chains) {
    c.Keys == v.Keys && forall n {:trigger LinkOk(v, c, n)} :: n in v ==> LinkOk(v, c, n)
  }

  ghost predicate Inv(v: View, c: Chains, root: Node, x: Node?) {
    RefsOk(v, x) && NamesOk(v, root) && UniqueOk(v) && TreeOk(v, c)
  }

  /** n is on the chain its parent and name hash to, if it has a parent, and on none otherwise. */
  ghost predicate Hashed(v: View, home: map<Node, nat>, n: Node)
    requires n in v
  {
    if v[n].parent == null then n !in home
    else n in home && v[n].name.Some? && home[n] == HashOf(v[n].parent.nodeid, v[n].name.value)
  }

  ghost predicate NamesHashed(v: View, home: map<Node, nat>) {
    home.Keys <= v.Keys && forall n {:trigger Hashed(v, home, n)} :: n in v ==> Hashed(v, home, n)
  }

  lemma {:induction false} ChainUnique(v: View, c: Chains, d: Chains, n: Node)
    requires TreeOk(v, c) && TreeOk(v, d) && n in v
    ensures c[n] == d[n]
    decreases |c[n]|
  {
    assert LinkOk(v, c, n) && LinkOk(v, d, n);
    if v[n].parent != null { ChainUnique(v, c, d, v[n].parent); }
  }

  /** The chains are determined by the parent links. */
  lemma TreeUnique(v: View, c: Chains, d: Chains)
    requires TreeOk(v, c) && TreeOk(v, d)
    ensures c == d
  {
    forall n | n in v ensures c[n] == d[n] {
      ChainUnique(v, c, d, n);
    }
  }

  // ----- the operations

  /** unref_node: drop one reference, and the node with the last one. */
  ghost function Unref(v: View, n: Node): View {
    if n !in v then v
    else if v[n].refctr == 1 then v - {n}
    else v[n := v[n].(refctr := v[n].refctr - 1)]
  }

  /** unhash_name. */
  ghost function Detach(v: View, n: Node): View
    requires n in v
  {
    if v[n].parent == null then v
    else Unref(v, v[n].parent)[n := v[n].(parent := null, name := None)]
  }

  /** hash_name. */
  ghost function Attach(v: View, n: Node, dir: Node, name: string): View
    requires n in v && dir in v
  {
    var w := v[n := v[n].(parent := dir, name := Some(name))];
    w[dir := w[dir].(refctr := w[dir].refctr + 1)]
  }

  /** calloc in find_node, before the node is hashed. */
  ghost function Fresh(v: View, n: Node): View {
    v[n := Rec(null, None, 0, 1, 0)]
  }

  ghost function SetLookup(v: View, n: Node, k: nat): View
    requires n in v
  {
    v[n := v[n].(nlookup := k)]
  }

  /** forget_node, once it no longer has to wait. */
  ghost function Forget(v: View, n: Node, k: nat): View
    requires n in v && k <= v[n].nlookup
  {
    if k < v[n].nlookup then SetLookup(v, n, v[n].nlookup - k)
    else Unref(Detach(SetLookup(v, n, 0), n), n)
  }

  /** find_node, for a name it does not find. */
  ghost function FindNew(v: View, n: Node, dir: Node, name: string): View
    requires dir in v
  {
    SetLookup(Attach(Fresh(v, n), n, dir, name), n, 1)
  }

  /** rename_node, when there is a node to rename: target, if not null, gives up its name first. */
  ghost function Rename(v: View, n: Node, target: Node?, dir: Node, name: string): View
    requires n in v && dir in v && (target == null || target in v)
  {
    var v1 := if target == null then v else Detach(v, target);
    if n !in v1 then v1 else
    var v2 := Detach(v1, n);
    if dir in v2 then Attach(v2, n, dir, name) else v2
  }

  /** rename_node, when there is no memory for the new name: neither node has one any more. */
  ghost function Unnamed(v: View, n: Node, target: Node?): View
    requires n in v && (target == null || target in v)
  {
    var v1 := if target == null then v else Detach(v, target);
    if n in v1 then Detach(v1, n) else v1
  }

  // ----- what they do, record by record

  /** Node n has left its directory: the parent has a reference less, and is gone with the last; the others are as they
      were. */
  ghost predicate LeftBy(v: View, w: View, n: Node)
    requires n in v
  {
    && (forall m :: m in w ==> m in v)
    && forall m :: m in v && m != n ==>
         if m == v[n].parent then
           (m in w <==> v[m].refctr > 1) && (m in w ==> w[m] == v[m].(refctr := v[m].refctr - 1))
         else m in w && w[m] == v[m]
  }

  ghost predicate Detached(v: View, w: View, n: Node)
    requires n in v
  {
    n in w && w[n] == v[n].(parent := null, name := None) && LeftBy(v, w, n)
  }

  /** The last lookup of n is gone, and n too unless it has children. */
  ghost predicate Forgotten(v: View, w: View, n: Node)
    requires n in v
  {
    && LeftBy(v, w, n) && (n in w <==> exists m :: m in v && v[m].parent == n)
    && (n in w ==> w[n] == v[n].(nlookup := 0, parent := null, name := None, refctr := v[n].refctr - 1))
  }

  /** Nodes have changed names and directories, but not those outside changed; none that is looked up is gone. */
  ghost predicate Steady(v: View, w: View, changed: set<Node>) {
    && (forall m :: m in w ==> m in v)
    && (forall m :: m in v && m !in w ==> v[m].nlookup == 0)
    && (forall m :: m in w ==> w[m].nlookup == v[m].nlookup && w[m].treelock == v[m].treelock)
    && (forall m :: m in w && m !in changed ==> w[m].parent == v[m].parent && w[m].name == v[m].name)
  }

  /** n is in parent under name, target is nowhere, and nothing else has moved. */
  ghost predicate Renamed(v: View, w: View, n: Node, target: Node?, parent: Node?, name: Option<string>) {
    && n in w && w[n].parent == parent && w[n].name == name
    && (target != null && target != n ==> target in w && w[target].parent == null && w[target].name == None)
    && Steady(v, w, if target == null then {n} else {n, target})
  }

  /** The chain s with everything behind n replaced by tail. */
  ghost function Splice(s: seq<Node>, n: Node, tail: seq<Node>): seq<Node> {
    if s == [] then [] else if s[0] == n then [n] + tail else [s[0]] + Splice(s[1..], n, tail)
  }

  /** The chains of Detach(v, n): those through n now end there. */
  ghost function DetachChains(v: View, c: Chains, n: Node): Chains
    requires n in v
  {
    if v[n].parent == null then c
    else map m | m in Detach(v, n) && m in c :: Splice(c[m], n, [])
  }

  /** The chains of Attach(v, n, dir, _): those through n now go on to dir. */
  ghost function AttachChains(c: Chains, n: Node, dir: Node): Chains
    requires dir in c
  {
    map m | m in c :: Splice(c[m], n, c[dir])
  }

  // ----- they keep the invariant

  lemma {:induction false} SpliceAbsent(s: seq<Node>, n: Node, tail: seq<Node>)
    requires n !in s
    ensures Splice(s, n, tail) == s
  {
    if s != [] { SpliceAbsent(s[1..], n, tail); }
  }

  lemma FewerUnique(v: View, w: View)
    requires UniqueOk(v) && w.Keys <= v.Keys
    requires forall m :: m in w ==>
               w[m].parent == null || (w[m].parent == v[m].parent && w[m].name == v[m].name)
    ensures UniqueOk(w)
  {
    forall a, b | a in w && b in w && Clash(w, a, b) ensures a == b {
      assert Clash(v, a, b);
    }
  }

  lemma OnlyOne<T>(s: set<T>, x: T)
    requires x in s && |s| == 1
    ensures s == {x}
  {
    assert |s - {x}| == 0;
  }

  /** What Detach does, record by record. */
  lemma DetachIs(v: View, n: Node, x: Node?, root: Node)
    requires RefsOk(v, x) && NamesOk(v, root) && n in v && n != root && (x == null || x == n)
    requires v[n].parent != null && v[n].parent in v && v[n].parent != n
    ensures Detached(v, Detach(v, n), n) && (x == null ==> Steady(v, Detach(v, n), {n}))
  {
    DetachRecords(v, n, x, root);
    var p := v[n].parent;
    assert RefOk(v, x, p);
    hide RefsOk, NamesOk, Detach;
  }

  lemma AttachIs(v: View, n: Node, dir: Node, name: string)
    requires n in v && dir in v && n != dir
    ensures var w := Attach(v, n, dir, name);
            && w.Keys == v.Keys && Steady(v, w, {n}) && w[n].parent == dir && w[n].name == Some(name)
            && forall m :: m in v && m != n && m != dir ==> w[m] == v[m]
  {}

  lemma SteadyOn(v: View, u: View, w: View, a: set<Node>, b: set<Node>)
    requires Steady(v, u, a) && Steady(u, w, b)
    ensures Steady(v, w, a + b)
  {}

  lemma DetachRecords(v: View, n: Node, x: Node?, root: Node)
    requires RefsOk(v, x) && NamesOk(v, root) && n in v && n != root && (x == null || x == n)
    requires v[n].parent != null && v[n].parent in v && v[n].parent != n
    ensures var p, w := v[n].parent, Detach(v, n);
            && (v[p].refctr == 1 ==>
                  p != root && v[p].name == None && v[p].parent == null && v[p].treelock == 0 && Kids(v, p) == {n})
            && w.Keys == v.Keys - (if v[p].refctr == 1 then {p} else {})
            && (forall m :: m in w ==>
                  w[m] == if m == n then v[n].(parent := null, name := None)
                          else if m == p then v[p].(refctr := v[p].refctr - 1)
                          else v[m])
  {
    var p := v[n].parent;
    assert n in Kids(v, p);
    assert RefOk(v, x, p) && NameOk(v, root, p);
    if v[p].refctr == 1 {
      assert Kids(v, p) != {};
      OnlyOne(Kids(v, p), n);
    }
  }

  /** The run-time assertions of unref_node and delete_node hold when a parent loses a child. */
  lemma DetachGuards(v: View, c: Chains, n: Node, x: Node?, root: Node)
    requires Inv(v, c, root, x) && n in v && n != root && (x == null || x == n) && v[n].parent != null
    ensures var p := v[n].parent;
            p in v && p != n && v[p].refctr > 0 && (v[p].refctr == 1 ==> v[p].treelock == 0 && v[p].name == None)
  {
    assert LinkOk(v, c, n);
    assert |c[n]| == 1 + |c[v[n].parent]|;
    DetachRecords(v, n, x, root);
    assert RefOk(v, x, v[n].parent);
  }

  lemma DetachKeepsHashed(v: View, c: Chains, n: Node, x: Node?, root: Node, home: map<Node, nat>)
    requires Inv(v, c, root, x) && n in v && n != root && (x == null || x == n) && v[n].parent != null
    requires NamesHashed(v, home)
    ensures NamesHashed(Detach(v, n), home - {n})
  {
    DetachGuards(v, c, n, x, root);
    DetachRecords(v, n, x, root);
    assert Hashed(v, home, v[n].parent);
    forall m | m in Detach(v, n) ensures Hashed(Detach(v, n), home - {n}, m) {
      assert Hashed(v, home, m);
    }
  }

  lemma DetachKeepsRef(v: View, n: Node, x: Node?, root: Node, m: Node)
    requires RefsOk(v, x) && NamesOk(v, root) && n in v && n != root && (x == null || x == n)
    requires v[n].parent != null && v[n].parent in v && v[n].parent != n
    requires m in Detach(v, n)
    ensures RefOk(Detach(v, n), x, m) && NameOk(Detach(v, n), root, m)
  {
    DetachRecords(v, n, x, root);
    assert Kids(Detach(v, n), m) == Kids(v, m) - {n};
    assert RefOk(v, x, m) && NameOk(v, root, m) && RefOk(v, x, n);
  }

  lemma DetachKeepsLink(v: View, c: Chains, n: Node, x: Node?, root: Node, m: Node)
    requires Inv(v, c, root, x) && n in v && n != root && (x == null || x == n)
    requires v[n].parent != null && v[n].parent in v && v[n].parent != n
    requires m in Detach(v, n)
    ensures LinkOk(Detach(v, n), DetachChains(v, c, n), m)
  {
    DetachRecords(v, n, x, root);
    assert LinkOk(v, c, m);
    if m == n || v[m].parent == null {
      assert Splice(c[m], n, []) == [m];
    } else {
      assert m in Kids(v, v[m].parent);
      assert ([m] + c[v[m].parent])[1..] == c[v[m].parent];
    }
  }

  lemma DetachKeepsUnique(v: View, n: Node, x: Node?, root: Node)
    requires RefsOk(v, x) && NamesOk(v, root) && UniqueOk(v) && n in v && n != root && (x == null || x == n)
    requires v[n].parent != null && v[n].parent in v && v[n].parent != n
    ensures UniqueOk(Detach(v, n)) && root in Detach(v, n)
  {
    DetachRecords(v, n, x, root);
    FewerUnique(v, Detach(v, n));
  }

  lemma DetachKeeps(v: View, c: Chains, n: Node, x: Node?, root: Node) returns (d: Chains)
    requires Inv(v, c, root, x) && n in v && n != root && (x == null || x == n)
    ensures Inv(Detach(v, n), d, root, x) && d == DetachChains(v, c, n)
  {
    d := c;
    if v[n].parent != null {
      assert LinkOk(v, c, n);
      assert |c[n]| == 1 + |c[v[n].parent]|;
      var w := Detach(v, n);
      DetachKeepsUnique(v, n, x, root);
      forall m | m in w ensures RefOk(w, x, m) && NameOk(w, root, m) {
        DetachKeepsRef(v, n, x, root, m);
      }
      d := DetachChains(v, c, n);
      assert d.Keys == w.Keys;
      forall m | m in w ensures LinkOk(w, d, m) {
        DetachKeepsLink(v, c, n, x, root, m);
      }
    }
  }

  /** A chain that passes through a node without a parent ends there. */
  lemma {:induction false} ChainEnds(v: View, c: Chains, m: Node, n: Node)
    requires TreeOk(v, c) && m in v && n in v && v[n].parent == null && n in c[m]
    ensures c[m][|c[m]| - 1] == n
    decreases |c[m]|
  {
    assert LinkOk(v, c, m) && LinkOk(v, c, n);
    if m != n {
      var p := v[m].parent;
      assert n in c[p];
      ChainEnds(v, c, p, n);
    }
  }

  lemma AttachKeepsRef(v: View, n: Node, dir: Node, name: string, x: Node?, root: Node, m: Node)
    requires RefsOk(v, x) && NamesOk(v, root) && n in v && dir in v && n != root && n != dir
    requires v[n].parent == null && (v[n].nlookup > 0 || x == n) && GoodName(name)
    requires m in v
    ensures RefOk(Attach(v, n, dir, name), x, m) && NameOk(Attach(v, n, dir, name), root, m)
  {
    var w := Attach(v, n, dir, name);
    assert RefOk(v, x, m) && NameOk(v, root, m);
    assert Kids(w, m) == Kids(v, m) + if m == dir then {n} else {};
  }

  lemma SameNamesHashed(v: View, w: View, home: map<Node, nat>)
    requires NamesHashed(v, home) && w.Keys == v.Keys
    requires forall m :: m in w ==> w[m].parent == v[m].parent && w[m].name == v[m].name
    ensures NamesHashed(w, home)
  {
    forall m | m in w ensures Hashed(w, home, m) {
      assert Hashed(v, home, m);
    }
  }

  lemma FreshKeepsHashed(v: View, n: Node, home: map<Node, nat>)
    requires NamesHashed(v, home) && n !in v
    ensures NamesHashed(Fresh(v, n), home)
  {
    forall m | m in Fresh(v, n) ensures Hashed(Fresh(v, n), home, m) {
      assert m in v ==> Hashed(v, home, m);
    }
  }

  lemma UnrefKeepsHashed(v: View, n: Node, home: map<Node, nat>)
    requires NamesHashed(v, home) && n in v && v[n].parent == null
    ensures NamesHashed(Unref(v, n), home)
  {
    assert Hashed(v, home, n);
    forall m | m in Unref(v, n) ensures Hashed(Unref(v, n), home, m) {
      assert Hashed(v, home, m);
    }
  }

  /** The run-time assertions of unref_node and delete_node hold when forget_node drops the last reference. */
  lemma LastRef(v: View, c: Chains, n: Node, root: Node)
    requires Inv(v, c, root, n) && n in v && n != root && v[n].parent == null && v[n].nlookup == 0
    ensures v[n].refctr > 0 && v[n].treelock == 0 && v[n].name == None
  {
    assert RefOk(v, n, n) && NameOk(v, root, n);
  }

  lemma AttachKeepsHashed(v: View, n: Node, dir: Node, name: string, home: map<Node, nat>)
    requires NamesHashed(v, home) && n in v && dir in v && n != dir && v[n].parent == null
    ensures n !in home
    ensures NamesHashed(Attach(v, n, dir, name), home[n := HashOf(dir.nodeid, name)])
  {
    var w, h := Attach(v, n, dir, name), home[n := HashOf(dir.nodeid, name)];
    assert Hashed(v, home, n);
    forall m | m in w ensures Hashed(w, h, m) {
      assert Hashed(v, home, m);
    }
  }

  lemma AttachKeepsLink(v: View, c: Chains, n: Node, dir: Node, name: string, m: Node)
    requires TreeOk(v, c) && n in v && dir in v && v[n].parent == null && n !in c[dir] && m in v
    ensures LinkOk(Attach(v, n, dir, name), AttachChains(c, n, dir), m)
  {
    assert LinkOk(v, c, m) && LinkOk(v, c, n) && LinkOk(v, c, dir);
    SpliceAbsent(c[dir], n, c[dir]);
    if m != n && v[m].parent != null {
      assert ([m] + c[v[m].parent])[1..] == c[v[m].parent];
    } else if m != n {
      assert Splice(c[m], n, c[dir]) == [m];
    }
  }

  ghost predicate IsEntry(v: View, n: Node, dir: nat, name: string) {
    n in v && v[n].parent != null && v[n].parent.nodeid == dir && v[n].name == Some(name)
  }

  lemma AttachKeeps(v: View, c: Chains, n: Node, dir: Node, name: string, x: Node?, root: Node) returns (d: Chains)
    requires Inv(v, c, root, x) && n in v && dir in v && n != root && v[n].parent == null && n !in c[dir]
    requires (v[n].nlookup > 0 || x == n) && GoodName(name)
    requires forall m :: m in v ==> !IsEntry(v, m, dir.nodeid, name)
    ensures Inv(Attach(v, n, dir, name), d, root, x) && d == AttachChains(c, n, dir)
  {
    var w := Attach(v, n, dir, name);
    d := AttachChains(c, n, dir);
    assert LinkOk(v, c, dir);
    forall m | m in w ensures RefOk(w, x, m) && NameOk(w, root, m) {
      AttachKeepsRef(v, n, dir, name, x, root, m);
    }
    forall m | m in w ensures LinkOk(w, d, m) {
      AttachKeepsLink(v, c, n, dir, name, m);
    }
    AttachKeepsUnique(v, n, dir, name);
  }

  lemma AttachKeepsUnique(v: View, n: Node, dir: Node, name: string)
    requires UniqueOk(v) && n in v && dir in v && n != dir && v[n].parent == null
    requires forall m :: m in v ==> !IsEntry(v, m, dir.nodeid, name)
    ensures UniqueOk(Attach(v, n, dir, name))
  {
    var w := Attach(v, n, dir, name);
    forall a, b | a in w && b in w && Clash(w, a, b) ensures a == b {
      assert !IsEntry(v, a, dir.nodeid, name) && !IsEntry(v, b, dir.nodeid, name);
      assert Clash(v, a, b) || a == n || b == n;
    }
  }

  lemma FreshKeeps(v: View, c: Chains, n: Node, root: Node) returns (d: Chains)
    requires Inv(v, c, root, null) && n !in v && forall m :: m in v ==> m.nodeid != n.nodeid
    ensures Inv(Fresh(v, n), d, root, n) && d == c[n := [n]]
  {
    var w := Fresh(v, n);
    d := c[n := [n]];
    forall a, b | a in w && b in w && Clash(w, a, b) ensures a == b {
      assert a in v && b in v ==> Clash(v, a, b);
    }
    forall m | m in w ensures LinkOk(w, d, m) {
      if m in v { assert LinkOk(v, c, m); }
    }
    forall m | m in w ensures RefOk(w, n, m) && NameOk(w, root, m) {
      if m in v { assert RefOk(v, null, m) && NameOk(v, root, m); }
      assert Kids(w, m) == if m == n then {} else Kids(v, m) by {
        forall k | k in v ensures v[k].parent != n { assert LinkOk(v, c, k); }
      }
    }
  }

  lemma FreshUnique(v: View, c: Chains, n: Node, root: Node)
    requires Inv(v, c, root, null) && n !in v && forall m :: m in v ==> m.nodeid != n.nodeid
    ensures UniqueOk(Fresh(v, n))
  {
    var d := FreshKeeps(v, c, n, root);
  }

  /** A lookup more or fewer changes nothing else, as long as one is left. */
  lemma LookupKeeps(v: View, c: Chains, n: Node, k: nat, x: Node?, root: Node)
    requires Inv(v, c, root, x) && n in v && k > 0 &&
             (if x == null then v[n].nlookup > 0 else x == n && v[n].nlookup == 0)
    ensures Inv(SetLookup(v, n, k), c, root, null)
  {
    var w := SetLookup(v, n, k);
    FewerUnique(v, w);
    forall m | m in w ensures RefOk(w, null, m) && NameOk(w, root, m) && LinkOk(w, c, m) {
      assert RefOk(v, x, m) && NameOk(v, root, m) && LinkOk(v, c, m);
      assert Kids(w, m) == Kids(v, m);
    }
  }

  lemma LastLookupKeeps(v: View, c: Chains, n: Node, root: Node)
    requires Inv(v, c, root, null) && n in v && n != root && v[n].nlookup > 0 && v[n].treelock == 0
    ensures Inv(SetLookup(v, n, 0), c, root, n)
  {
    var w := SetLookup(v, n, 0);
    FewerUnique(v, w);
    forall m | m in w ensures RefOk(w, n, m) && NameOk(w, root, m) && LinkOk(w, c, m) {
      assert RefOk(v, null, m) && NameOk(v, root, m) && LinkOk(v, c, m);
      assert Kids(w, m) == Kids(v, m);
    }
  }

  lemma UnrefKeepsNode(v: View, c: Chains, n: Node, root: Node, m: Node)
    requires Inv(v, c, root, n) && n in v && v[n].nlookup == 0 && v[n].parent == null && m in Unref(v, n)
    ensures RefOk(Unref(v, n), null, m) && NameOk(Unref(v, n), root, m)
    ensures v[m].parent == null || v[m].parent in Unref(v, n)
  {
    var w := Unref(v, n);
    assert RefOk(v, n, m) && RefOk(v, n, n) && NameOk(v, root, m) && LinkOk(v, c, m);
    if v[m].parent == n { assert m in Kids(v, n); }
    assert Kids(w, m) == Kids(v, m);
  }

  /** The last step of forget_node: the reference the lookups held is dropped. */
  lemma UnrefKeeps(v: View, c: Chains, n: Node, root: Node) returns (d: Chains)
    requires Inv(v, c, root, n) && n in v && n != root && v[n].nlookup == 0 && v[n].parent == null
    ensures v[n].name == None && v[n].treelock == 0
    ensures Inv(Unref(v, n), d, root, null) && forall m :: m in d ==> m in c && d[m] == c[m]
  {
    assert RefOk(v, n, n) && NameOk(v, root, n);
    var w := Unref(v, n);
    d := map m | m in c && m in w :: c[m];
    assert d.Keys == w.Keys;
    FewerUnique(v, w);
    forall m | m in w ensures RefOk(w, null, m) && NameOk(w, root, m) {
      UnrefKeepsNode(v, c, n, root, m);
    }
    forall m | m in w ensures LinkOk(w, d, m) {
      UnrefKeepsNode(v, c, n, root, m);
      assert LinkOk(v, c, m);
    }
  }

  /** Taking a name away frees at most its parent, and that only when nobody looks it up. */
  lemma DetachKeepsNode(v: View, c: Chains, n: Node, x: Node?, root: Node, m: Node)
    requires Inv(v, c, root, x) && n in v && n != root && (x == null || x == n) && m in v
    requires m == n || v[m].nlookup > 0
    ensures m in Detach(v, n) && Detach(v, n)[m].nlookup == v[m].nlookup
    ensures Detach(v, n)[m].treelock == v[m].treelock
    ensures m != n ==> Detach(v, n)[m].parent == v[m].parent && Detach(v, n)[m].name == v[m].name
    ensures Detach(v, n)[n].parent == null && Detach(v, n)[n].name == None
  {
    assert NameOk(v, root, n);
    if v[n].parent != null {
      DetachGuards(v, c, n, x, root);
      DetachRecords(v, n, x, root);
      assert RefOk(v, x, v[n].parent) && RefOk(v, x, n);
      assert n in Kids(v, v[n].parent);
    }
  }
}
