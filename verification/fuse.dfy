/** The path library's node table and path locks (fuse/fuse.c). Each method runs under the library's one
    mutex, so an interleaving of requests is a sequence of these calls. */
module FuseTree {
  import opened Wrappers
  import opened NameHash
  import opened FuseNode
  import opened FuseView
  import opened PathLocks
  import opened Stamps
  import opened PathBuffer

  /** The chain of the id table that a node id belongs to. */
  function IdBucket(nodeid: nat): (h: nat)
    ensures h < TABLE_SIZE
  {
    nodeid % TABLE_SIZE
  }

  ghost function RecOf(n: Node): Rec
    reads n
  {
    Rec(n.parent, n.name, n.nlookup, n.refctr, n.treelock)
  }

  const NO_MEMORY: int := -1

  class Fuse {
    const nameTable: Table
    const idTable: Table
    const root: Node
    var ctr: nat
    var generation: nat
    ghost var epoch: nat            // generation before the 32-bit truncation
    ghost var issued: seq<nat>      // every stamp NextId has handed out
    ghost var view: View            // the allocated nodes and what their fields hold
    ghost var chains: Chains
    ghost var held: Held

    ghost predicate Sync()
      reads this`view, view.Keys
    {
      forall n {:trigger view[n]} :: n in view ==> view[n] == RecOf(n)
    }

    ghost predicate Apart()
    {
      nameTable != idTable && nameTable.head != idTable.head
    }

    /** The id table holds exactly the nodes of ids, each on the chain of its id. */
    ghost predicate IdsAre(ids: set<Node>)
      reads idTable, idTable.head
    {
      && idTable.Valid() && idTable.head.Length == TABLE_SIZE
      && idTable.home.Keys == ids
      && forall n {:trigger idTable.home[n]} :: n in ids ==> idTable.home[n] == IdBucket(n.nodeid)
    }

    ghost predicate IdTableOk()
      reads this`view, idTable, idTable.head
    {
      IdsAre(view.Keys)
    }

    /** The name table holds exactly the nodes that have a parent, on the chain of their name. */
    ghost predicate NameTableOk()
      reads this`view, nameTable, nameTable.head
    {
      nameTable.Valid() && nameTable.head.Length == TABLE_SIZE && NamesHashed(view, nameTable.home)
    }

    ghost predicate Valid(x: Node?)
      reads this`view, this`chains, nameTable, idTable, nameTable.head, idTable.head, view.Keys
    {
      Apart() && Sync() && IdTableOk() && NameTableOk() && Inv(view, chains, root, x)
    }

    /** Every held path is intact and every treelock accounted for. */
    ghost predicate Locks()
      reads this`view, this`chains, this`held
    {
      LocksOk(view, chains, root, held)
    }

    /** The table part of fuse_new_common. */
    constructor ()
      ensures Valid(null) && Locks() && view.Keys == {root} && held == map[]
      ensures fresh(root) && fresh(nameTable) && fresh(idTable) && fresh(nameTable.head) && fresh(idTable.head)
      ensures ctr == 0 && generation == 0 && epoch == 0 && issued == []
    {
      hide *;
      var names := new Table(TABLE_SIZE);
      var ids := new Table(TABLE_SIZE);
      var r := new Node(ROOT_ID, 0);
      nameTable, idTable, root := names, ids, r;
      ctr, generation, epoch, issued := 0, 0, 0, [];
      view, chains, held := map[r := Rec(null, Some("/"), 1, 1, 0)], map[r := [r]], map[];
      new;
      EnterRoot();
    }

    method EnterRoot()
      requires nameTable.Valid() && nameTable.head.Length == TABLE_SIZE && nameTable.home == map[]
      requires idTable.Valid() && idTable.head.Length == TABLE_SIZE && idTable.home == map[]
      requires nameTable != idTable && nameTable.head != idTable.head && root.nodeid == ROOT_ID && held == map[]
      requires root.parent == null && root.nlookup == 0 && root.refctr == 1 && root.treelock == 0
      requires view == map[root := Rec(null, Some("/"), 1, 1, 0)] && chains == map[root := [root]]
      modifies root`name, root`nlookup, idTable, idTable.head
      ensures Valid(null) && Locks()
    {
      hide Inv, LocksOk, Table.Valid, NamesHashed;
      root.name, root.nlookup := Some("/"), 1;
      idTable.Add(IdBucket(ROOT_ID), root);
      RootAlone(view, chains, root);
    }

    static lemma RootAlone(v: View, c: Chains, root: Node)
      requires v == map[root := Rec(null, Some("/"), 1, 1, 0)] && c == map[root := [root]] && root.nodeid == ROOT_ID
      ensures Inv(v, c, root, null) && LocksOk(v, c, root, map[]) && NamesHashed(v, map[])
    {}

    // ----- get_node_nocheck, lookup_node

    method GetNode(nodeid: nat, ghost ids: set<Node>) returns (node: Node?)
      requires IdsAre(ids)
      ensures node != null ==> node in ids && node.nodeid == nodeid
      ensures node == null ==> forall n :: n in ids ==> n.nodeid != nodeid
    {
      var hash := IdBucket(nodeid);
      idTable.Walk(hash);
      ghost var chain, i := idTable.chain[hash], 0;
      hide Table.Valid;
      node := idTable.head[hash];
      while node != null
        invariant 0 <= i <= |chain| && node == At(chain, i)
        invariant forall j :: 0 <= j < i ==> chain[j].nodeid != nodeid
        decreases |chain| - i
      {
        assert node == chain[i];
        if node.nodeid == nodeid { return; }
        node := idTable.next[node];
        i := i + 1;
      }
      forall n | n in ids ensures n.nodeid != nodeid {
        assert idTable.home[n] == IdBucket(n.nodeid);
      }
    }

    method LookupNode(parent: nat, name: string) returns (node: Node?)
      requires Sync() && NameTableOk() && GoodName(name)
      ensures node != null ==> IsEntry(view, node, parent, name)
      ensures node == null ==> forall n :: n in view ==> !IsEntry(view, n, parent, name)
    {
      var hash := ComputeHash(parent, name);
      nameTable.Walk(hash);
      ghost var chain, i := nameTable.chain[hash], 0;
      hide Table.Valid;
      node := nameTable.head[hash];
      while node != null
        invariant 0 <= i <= |chain| && node == At(chain, i)
        invariant forall j :: 0 <= j < i ==> !IsEntry(view, chain[j], parent, name)
        decreases |chain| - i
      {
        assert node == chain[i] && Hashed(view, nameTable.home, node);
        if node.parent.nodeid == parent && node.name.value == name { return; }
        node := nameTable.next[node];
        i := i + 1;
      }
      forall n | n in view ensures !IsEntry(view, n, parent, name) {
        assert Hashed(view, nameTable.home, n);
      }
    }

    // ----- delete_node, unref_node, unhash_name, hash_name

    /** delete_node; its two run-time assertions are the last two preconditions. */
    method DeleteNode(node: Node)
      requires IdTableOk() && node in view
      requires node.treelock == 0
      requires node.name == None
      modifies this`view, idTable, idTable.head
      ensures IdTableOk() && view == old(view) - {node}
    {
      assert idTable.home[node] == IdBucket(node.nodeid);
      var found := idTable.Remove(IdBucket(node.nodeid), node);
      view := view - {node};
    }

    static lemma DropUpdated(v: View, n: Node, r: Rec)
      ensures v[n := r] - {n} == v - {n}
    {}

    method UnrefNode(node: Node)
      requires Sync() && IdTableOk() && node in view
      requires node.refctr > 0
      requires node.refctr == 1 ==> node.treelock == 0 && node.name == None
      modifies this`view, idTable, idTable.head, node`refctr
      ensures Sync() && IdTableOk()
      ensures view == Unref(old(view), node) && view.Keys >= old(view.Keys) - {node}
    {
      hide IdBucket, Table.Valid;
      ghost var v := view;
      node.refctr := node.refctr - 1;
      view := view[node := RecOf(node)];
      if node.refctr == 0 {
        DeleteNode(node);
        DropUpdated(v, node, RecOf(node));
      }
    }

    /** The walk over node's chain of the name table; the abort behind it is never reached. */
    method UnchainName(node: Node)
      requires Sync() && NameTableOk() && node in view && node.parent != null && node.name.Some?
      requires GoodName(node.name.value)
      modifies nameTable, nameTable.head
      ensures nameTable.Valid() && nameTable.home == old(nameTable.home) - {node}
    {
      assert Hashed(view, nameTable.home, node);
      var hash := ComputeHash(node.parent.nodeid, node.name.value);
      var found := nameTable.Remove(hash, node);
      assert found;
    }

    /** The rest of unhash_name: drop the reference on the parent, then forget name and parent. */
    method LeaveParent(node: Node, p: Node)
      requires Sync() && IdTableOk() && node in view && p in view && node.parent == p && p != node
      requires p.refctr > 0
      requires p.refctr == 1 ==> p.treelock == 0 && p.name == None
      modifies this`view, idTable, idTable.head, p`refctr, node`name, node`parent
      ensures Sync() && IdTableOk()
      ensures view == Detach(old(view), node)
    {
      hide IdsAre, Unref;
      assert view[node] == RecOf(node);
      UnrefNode(p);
      node.name := None;
      node.parent := null;
      ghost var ids := view.Keys;
      view := view[node := RecOf(node)];
      assert view.Keys == ids;
    }

    /** What the fields of a live node are known to hold. */
    lemma Known(n: Node, x: Node?)
      requires Valid(x) && n in view
      ensures view[n] == RecOf(n)
      ensures n != root ==> (n.name.Some? <==> n.parent != null)
      ensures n != root && n.name.Some? ==> GoodName(n.name.value)
    {
      assert NameOk(view, root, n) && view[n] == RecOf(n);
    }

    lemma RootKnown()
      requires Valid(null)
      ensures IdTableOk() && root in view && root.nodeid == ROOT_ID
    {}

    /** The body of unhash_name; its effect on the tables. x is as for UnhashName. */
    method TakeName(node: Node, ghost x: Node?)
      requires Valid(x) && node in view && node != root && (x == null || x == node) && node.parent != null
      modifies this`view, nameTable, idTable, nameTable.head, idTable.head
      modifies view.Keys`refctr, node`name, node`parent
      ensures Sync() && IdTableOk() && NameTableOk()
      ensures view == Detach(old(view), node)
    {
      hide Table.Valid, NamesHashed, TreeOk, RefsOk, NamesOk, UniqueOk, Detach;
      var p: Node := node.parent;
      Known(node, x);
      DetachKeepsHashed(view, chains, node, x, root, nameTable.home);
      DetachGuards(view, chains, node, x, root);
      Known(p, x);
      UnchainName(node);
      LeaveParent(node, p);
    }

    /** unhash_name. x is the node whose last lookup is being given up, if any. */
    method UnhashName(node: Node, ghost x: Node?)
      requires Valid(x) && node in view && node != root && (x == null || x == node)
      modifies this`view, this`chains, nameTable, idTable, nameTable.head, idTable.head
      modifies view.Keys`refctr, node`name, node`parent
      ensures Valid(x) && node in view && view.Keys <= old(view.Keys)
      ensures view == Detach(old(view), node)
    {
      hide Sync, IdTableOk, NameTableOk, TreeOk, RefsOk, NamesOk, UniqueOk, DetachChains;
      ghost var v, c := view, chains;
      Known(node, x);
      if node.name.Some? { TakeName(node, x); }
      chains := DetachKeeps(v, c, node, x, root);
    }

    /** hash_name, for a node without a name; dir is the node whose id is parentid. */
    method HashName(node: Node, parentid: nat, name: string, ghost dir: Node, ghost ids: set<Node>) returns (err: int)
      requires Apart() && Sync() && IdsAre(ids) && NameTableOk() && UniqueOk(view) && GoodName(name)
      requires node in view && dir in ids && ids <= view.Keys && dir.nodeid == parentid && dir != node
      requires view[node].parent == null && view[node].name == None
      modifies this`view, nameTable, nameTable.head, dir`refctr, node`name, node`parent
      ensures Sync() && IdsAre(ids) && NameTableOk() && (err == 0 || err == NO_MEMORY) && view.Keys == old(view.Keys)
      ensures err == 0 ==> view == Attach(old(view), node, dir, name)
      ensures err != 0 ==> view == old(view) && nameTable.home == old(nameTable.home) && node.name == None
    {
      hide IdBucket, Table.Valid, Hashed, HashOf, Attach;
      AttachKeepsHashed(view, node, dir, name, nameTable.home);
      var hash := ComputeHash(parentid, name);
      var parent := GetNode(parentid, ids);
      assert parent == dir by { assert Clash(view, parent, dir); }
      if * {
        InSync(node);
        node.name := None;
        return NO_MEMORY;
      }
      nameTable.Add(hash, node);
      EnterParent(node, parent, name);
      err := 0;
    }

    /** The fields hash_name sets. */
    method EnterParent(node: Node, parent: Node, name: string)
      requires Sync() && node in view && parent in view && parent != node
      modifies this`view, parent`refctr, node`name, node`parent
      ensures Sync() && view == Attach(old(view), node, parent, name) && view.Keys == old(view.Keys)
    {
      assert view[node] == RecOf(node) && view[parent] == RecOf(parent);
      node.name := Some(name);
      parent.refctr := parent.refctr + 1;
      node.parent := parent;
      view := Attach(view, node, parent, name);
    }

    // ----- next_id

    ghost function Clock(): nat
      reads this`epoch, this`ctr
    {
      epoch * WORD + ctr
    }

    ghost predicate Free(id: nat)
      reads this`view
    {
      0 < id < UNKNOWN_INO && forall n :: n in view ==> n.nodeid != id
    }

    ghost predicate SomeFree()
      reads this`view
    {
      exists f: nat :: Free(f)
    }

    ghost predicate ClockOk()
      reads this`ctr, this`generation, this`epoch, this`issued
    {
      ctr < WORD && generation == epoch % WORD && StampsOk(issued, Clock())
    }

    /** One turn of the counter. */
    method Tick()
      requires ctr < WORD && generation == epoch % WORD
      modifies this`ctr, this`generation, this`epoch
      ensures ctr == (old(ctr) + 1) % WORD && generation == epoch % WORD
      ensures Clock() == old(Clock()) + 1
    {
      ctr := (ctr + 1) % WORD;
      if ctr == 0 {
        generation := (generation + 1) % WORD;
        epoch := epoch + 1;
      }
    }

    /** next_id: the loop ends because some id is free. */
    method NextId() returns (id: nat)
      requires IdTableOk() && ClockOk() && root in view && root.nodeid == ROOT_ID
      requires SomeFree()
      modifies this`ctr, this`generation, this`epoch, this`issued
      ensures ClockOk() && Free(id) && id == ctr
      ensures Clock() > old(Clock()) && issued == old(issued) + [Clock()]
      ensures id == IdOf(Clock()) && generation == GenerationOf(Clock())
      ensures forall s :: old(Clock()) < s < Clock() ==> !Free(IdOf(s))
    {
      hide Table.Valid, IdBucket, IdOf, GenerationOf;
      ghost var f: nat :| Free(f);
      var taken := true;
      while taken
        invariant ctr < WORD && generation == epoch % WORD
        invariant issued == old(issued) && Clock() >= old(Clock()) && (!taken ==> Clock() > old(Clock()) && Free(ctr))
        invariant forall s :: old(Clock()) < s < Clock() + (if taken then 1 else 0) ==> !Free(IdOf(s))
        decreases taken, if f > ctr then f - ctr else f + WORD - ctr
      {
        Tick();
        ClockPair(epoch, ctr);
        if ctr != 0 && ctr != UNKNOWN_INO {
          var node := GetNode(ctr, view.Keys);
          taken := node != null;
        }
      }
      id := ctr;
      ClockPair(epoch, ctr);
      StampAdded(issued, old(Clock()), Clock());
      issued := issued + [Clock()];
    }

    method HashId(node: Node, ghost ids: set<Node>)
      requires IdsAre(ids) && node !in ids
      modifies idTable, idTable.head
      ensures IdsAre(ids + {node})
    {
      idTable.Add(IdBucket(node.nodeid), node);
    }

    // ----- the requests

    method SetNlookup(node: Node, k: nat)
      requires Sync() && NameTableOk() && node in view
      modifies this`view, node`nlookup
      ensures Sync() && NameTableOk()
      ensures view == SetLookup(old(view), node, k) && view.Keys == old(view.Keys) && node.nlookup == k
    {
      hide Table.Valid, NamesHashed;
      assert view[node] == RecOf(node);
      SameNamesHashed(view, SetLookup(view, node, k), nameTable.home);
      node.nlookup := k;
      view := SetLookup(view, node, k);
    }

    /** hash_name and hash_id of find_node. */
    method LinkNode(node: Node, parent: nat, name: string, ghost dir: Node) returns (err: int)
      requires Valid(null) && GoodName(name) && dir in view && dir.nodeid == parent
      requires node !in view && (forall n :: n in view ==> n.nodeid != node.nodeid) &&
               RecOf(node) == Rec(null, None, 0, 1, 0)
      modifies this`view, nameTable, idTable, nameTable.head, idTable.head, dir`refctr, node`name, node`parent
      ensures Sync() && IdTableOk() && NameTableOk() && (err == 0 || err == NO_MEMORY)
      ensures err == 0 ==> node in view && view == Attach(Fresh(old(view), node), node, dir, name)
      ensures err != 0 ==> view == old(view)
    {
      hide Table.Valid, NamesHashed, Inv, UniqueOk, Attach, IdsAre, GoodName, HashOf;
      ghost var v := view;
      view := Fresh(v, node);
      assert view.Keys == v.Keys + {node};
      assert NamesHashed(view, nameTable.home) by { FreshKeepsHashed(v, node, nameTable.home); }
      assert UniqueOk(view) by { FreshUnique(v, chains, node, root); }
      err := HashName(node, parent, name, dir, v.Keys);
      if err != 0 {
        view := v;
        return;
      }
      HashId(node, v.Keys);
    }

    /** The part of find_node that enters a new node into both tables and gives it its first lookup. */
    method EnterNode(node: Node, parent: nat, name: string, ghost dir: Node) returns (err: int)
      requires Valid(null) && GoodName(name) && dir in view && dir.nodeid == parent
      requires node !in view && (forall n :: n in view ==> n.nodeid != node.nodeid) &&
               RecOf(node) == Rec(null, None, 0, 1, 0)
      requires forall n :: n in view ==> !IsEntry(view, n, parent, name)
      modifies this`view, this`chains, nameTable, idTable, nameTable.head, idTable.head
      modifies dir`refctr, node`name, node`parent, node`nlookup
      ensures Valid(null) && (old(Locks()) ==> Locks()) && (err == 0 || err == NO_MEMORY)
      ensures err == 0 ==> view == FindNew(old(view), node, dir, name)
      ensures err != 0 ==> view == old(view) && chains == old(chains)
    {
      hide Table.Valid, NamesHashed, Inv, LocksOk, Attach, IdsAre, SetLookup;
      ghost var v, c := view, chains;
      err := LinkNode(node, parent, name, dir);
      if err != 0 { return; }
      SetNlookup(node, node.nlookup + 1);
      chains := FindKeeps(v, c, root, held, node, dir, name);
    }

    /** The part of find_node that makes a node; null when memory runs out. */
    method NewNode(parent: nat, name: string, ghost dir: Node) returns (node: Node?)
      requires Valid(null) && ClockOk() && GoodName(name)
      requires dir in view && dir.nodeid == parent
      requires SomeFree()
      requires forall n :: n in view ==> !IsEntry(view, n, parent, name)
      modifies this, nameTable, idTable, nameTable.head, idTable.head, view.Keys
      ensures Valid(null) && ClockOk() && (old(Locks()) ==> Locks()) && held == old(held)
      ensures if node == null then view == old(view) && chains == old(chains)
              else fresh(node) && view == FindNew(old(view), node, dir, name) && issued == old(issued) + [Clock()] &&
                   node.nodeid == IdOf(Clock()) && node.generation == GenerationOf(Clock())
      ensures node != null ==> MadeIn(old(view), view, node, dir, name)
    {
      hide Valid, Locks, FindNew, MadeIn, SomeFree, IdTableOk, ClockOk, Clock, IdOf, GenerationOf;
      RootKnown();
      if * { return null; }
      var id := NextId();
      var made := new Node(id, generation);
      var err := EnterNode(made, parent, name, dir);
      node := if err == 0 then made else null;
      FindNewIs(old(view), made, dir, name);
    }

    /** find_node: null when memory runs out for a new node or its name. */
    method FindNode(parent: nat, name: string, ghost dir: Node) returns (node: Node?)
      requires Valid(null) && ClockOk() && GoodName(name)
      requires dir in view && dir.nodeid == parent
      requires SomeFree()
      modifies this, nameTable, idTable, nameTable.head, idTable.head, view.Keys
      ensures Valid(null) && ClockOk() && (old(Locks()) ==> Locks()) && held == old(held)
      ensures node != null ==> IsEntry(view, node, parent, name)
      ensures if exists n :: n in old(view) && IsEntry(old(view), n, parent, name)
              then node != null && node in old(view) &&
                  view == SetLookup(old(view), node, old(view)[node].nlookup + 1) && issued == old(issued)
              else if node == null then view == old(view) && chains == old(chains)
              else fresh(node) && view == FindNew(old(view), node, dir, name) && issued == old(issued) + [Clock()] &&
                   node.nodeid == IdOf(Clock()) && node.generation == GenerationOf(Clock())
      ensures node != null && node !in old(view) ==> MadeIn(old(view), view, node, dir, name)
      ensures node != null && node in old(view) ==>
                view == old(view)[node := old(view)[node].(nlookup := old(view)[node].nlookup + 1)]
    {
      hide Inv, Sync, IdTableOk, LocksOk, FindNew, MadeIn, StampsOk, SomeFree, Apart;
      var n := LookupNode(parent, name);
      if n == null {
        node := NewNode(parent, name, dir);
        if node != null { FindNewEntry(old(view), node, dir, name); }
      } else {
        node := n;
        GainLookup(node);
      }
    }

    /** One lookup more of a named node. */
    method GainLookup(node: Node)
      requires Valid(null) && node in view && view[node].parent != null
      modifies this`view, node`nlookup
      ensures Valid(null) && (old(Locks()) ==> Locks())
      ensures view == SetLookup(old(view), node, old(view)[node].nlookup + 1)
      ensures view == old(view)[node := old(view)[node].(nlookup := old(view)[node].nlookup + 1)]
    {
      hide Table.Valid, NamesHashed, TreeOk, RefsOk, NamesOk, UniqueOk, LocksOk;
      Known(node, null);
      GainKeeps(view, chains, root, held, node);
      SetNlookup(node, node.nlookup + 1);
    }

    /** forget_node. It waits, changing nothing, while the last lookup would go from a locked node. */
    method ForgetNode(nodeid: nat, k: nat, ghost node: Node) returns (waiting: bool)
      requires Valid(null) && node in view && node.nodeid == nodeid && 0 < k <= view[node].nlookup
      modifies this`view, this`chains, nameTable, idTable, nameTable.head, idTable.head, view.Keys
      ensures Valid(null) && (old(Locks()) ==> Locks())
      ensures waiting <==> nodeid != ROOT_ID && old(view)[node].nlookup == k && old(view)[node].treelock != 0
      ensures view == if waiting || nodeid == ROOT_ID then old(view) else Forget(old(view), node, k)
      ensures !waiting && nodeid != ROOT_ID ==>
                if k < old(view)[node].nlookup then
                  view == old(view)[node := old(view)[node].(nlookup := old(view)[node].nlookup - k)]
                else Forgotten(old(view), view, node)
    {
      hide Table.Valid, NamesHashed, Inv, LocksOk, IdsAre;
      if nodeid == ROOT_ID { return false; }
      var n := FindId(nodeid, node);
      Known(node, null);
      if n.nlookup == k && n.treelock != 0 { return true; }
      NotRoot(n);
      ForgetIs(view, chains, root, n, k);
      Lose(n, k);
      waiting := false;
    }

    lemma NotRoot(n: Node)
      requires Valid(null) && n in view && n.nodeid != ROOT_ID
      ensures n != root && Inv(view, chains, root, null)
    {}

    method FindId(nodeid: nat, ghost node: Node) returns (n: Node)
      requires Valid(null) && node in view && node.nodeid == nodeid
      ensures n == node
    {
      var m := GetNode(nodeid, view.Keys);
      n := m;
      assert Clash(view, n, node);
    }

    /** forget_node, when it does not wait. */
    method Lose(node: Node, k: nat)
      requires Valid(null) && node in view && node.nodeid != ROOT_ID && 0 < k <= view[node].nlookup
      requires k == view[node].nlookup ==> view[node].treelock == 0
      modifies this`view, this`chains, nameTable, idTable, nameTable.head, idTable.head, view.Keys
      ensures Valid(null) && (old(Locks()) ==> Locks())
      ensures view == Forget(old(view), node, k)
    {
      hide Table.Valid, Inv, NamesHashed, NameTableOk, Sync, LocksOk, IdsAre, Detach, Unref, SetLookup;
      ghost var v, c := view, chains;
      RootKnown();
      Known(node, null);
      ghost var d := ForgetKeeps(v, c, root, held, node, k);
      SetNlookup(node, node.nlookup - k);
      if node.nlookup == 0 {
        InSync(node);
        LastLookupKeeps(v, c, node, root);
        DropLast(node);
      }
      chains := d;
    }

    /** unhash_name and unref_node of a node whose last lookup is gone. */
    method DropLast(node: Node)
      requires Valid(node) && node in view && node != root && view[node].nlookup == 0
      modifies this`view, this`chains, nameTable, idTable, nameTable.head, idTable.head, view.Keys
      ensures Sync() && IdTableOk() && NameTableOk()
      ensures view == Unref(Detach(old(view), node), node)
    {
      hide Table.Valid, Inv, NamesHashed, Detach, Unref, Sync, IdsAre;
      DetachKeepsNode(view, chains, node, node, root, node);
      UnhashName(node, node);
      Known(node, node);
      UnrefKeepsHashed(view, node, nameTable.home);
      LastRef(view, chains, node, root);
      UnrefNode(node);
    }

    /** remove_node. The held paths survive if and only if none runs through the node. */
    method RemoveNode(dir: nat, name: string) returns (ghost node: Node?)
      requires Valid(null) && GoodName(name)
      modifies this`view, this`chains, nameTable, idTable, nameTable.head, idTable.head, view.Keys
      ensures Valid(null)
      ensures node == null ==> (forall n :: n in old(view) ==> !IsEntry(old(view), n, dir, name)) &&
                               view == old(view) && chains == old(chains)
      ensures node != null ==> IsEntry(old(view), node, dir, name) && view == Detach(old(view), node)
      ensures node != null ==> Detached(old(view), view, node)
      ensures node != null && old(Locks()) ==> (Locks() <==> old(view)[node].treelock <= 0)
    {
      hide Table.Valid, Inv, NamesHashed, LocksOk, Detach, IdsAre;
      ghost var v, c := view, chains;
      var n := LookupNode(dir, name);
      node := n;
      if n != null {
        NamedNotRoot(v, c, n, root);
        TakeIs(v, c, root, n);
        UnhashName(n, null);
        TakenLocks(v, c, chains, n);
      }
    }

    lemma TakenLocks(v: View, c: Chains, d: Chains, n: Node)
      requires Inv(v, c, root, null) && n in v && n != root && v[n].parent != null && Inv(Detach(v, n), d, root, null)
      ensures LocksOk(v, c, root, held) ==> (LocksOk(Detach(v, n), d, root, held) <==> v[n].treelock <= 0)
    {
      hide LocksOk;
      if LocksOk(v, c, root, held) {
        var d' := DetachKeeps(v, c, n, null, root);
        TreeUnique(Detach(v, n), d, d');
        DetachKeepsLocks(v, c, root, held, null, n);
      }
    }

    /** rename_node. dir is the node of newdir: a live directory that is not below the moved node. */
    method RenameNode(olddir: nat, oldname: string, newdir: nat, newname: string, hiding: bool, ghost dir: Node)
      returns (err: int, ghost node: Node?, ghost target: Node?)
      requires Valid(null) && GoodName(oldname) && GoodName(newname)
      requires dir in view && dir.nodeid == newdir && view[dir].nlookup > 0
      requires forall n :: n in view && IsEntry(view, n, olddir, oldname) ==> n !in chains[dir]
      modifies this`view, this`chains, nameTable, idTable, nameTable.head, idTable.head, view.Keys
      ensures Valid(null)
      ensures node == null ==> forall n :: n in old(view) ==> !IsEntry(old(view), n, olddir, oldname)
      ensures node != null ==> IsEntry(old(view), node, olddir, oldname)
      ensures target == null ==> forall n :: n in old(view) ==> !IsEntry(old(view), n, newdir, newname)
      ensures target != null ==> IsEntry(old(view), target, newdir, newname)
      ensures if node != null && target != null && hiding then err == EBUSY
              else err == 0 || (node != null && err == ENOMEM)
      ensures node != null && err != EBUSY ==>
                if err == ENOMEM then Renamed(old(view), view, node, target, null, None)
                else Renamed(old(view), view, node, target, dir, Some(newname))
      ensures forall m :: m in old(view) ==>
                m.isHidden == (old(m.isHidden) || (m == node && hiding && err == 0))
      ensures if node == null || err == EBUSY then view == old(view) && chains == old(chains)
              else if err == ENOMEM then view == Unnamed(old(view), node, target) &&
                   (old(Locks()) ==> (Locks() <==> old(view)[node].treelock <= 0 &&
                                                   (target != null ==> old(view)[target].treelock <= 0)))
              else view == Rename(old(view), node, target, dir, newname) && (hiding ==> node.isHidden) &&
                   (old(Locks()) ==> (Locks() <==> RenameSafe(old(view), node, target, dir)))
    {
      hide Table.Valid, Inv, NamesHashed, LocksOk, Detach, IdsAre, Rename, Unnamed, RenameAllowed, Renamed;
      var n := LookupNode(olddir, oldname);
      var t := LookupNode(newdir, newname);
      node, target, err := n, t, 0;
      if n != null {
        if t != null && hiding { return EBUSY, node, target; }
        NamedNotRoot(view, chains, n, root);
        AllowedByLookup(view, chains, root, n, t, dir, newname);
        RenameIs(view, chains, root, n, t, dir, newname);
        var hashed := Move(n, t, newdir, newname, dir);
        if hashed != 0 { return ENOMEM, node, target; }
        if hiding { Hide(n); }
      }
    }

    method Hide(node: Node)
      requires Valid(null)
      modifies node`isHidden
      ensures Valid(null) && node.isHidden && Locks() == old(Locks())
    {
      hide Inv, LocksOk, NameTableOk, IdTableOk;
      node.isHidden := true;
    }

    /** The re-hashing of rename_node: its effect on the tables. */
    method Rehash(node: Node, target: Node?, newdir: nat, newname: string, ghost dir: Node) returns (err: int)
      requires Valid(null) && node != root && dir.nodeid == newdir
      requires RenameAllowed(view, chains, node, target, dir, newname)
      modifies this`view, this`chains, nameTable, idTable, nameTable.head, idTable.head
      modifies view.Keys`refctr, view.Keys`name, view.Keys`parent
      ensures Sync() && IdTableOk() && NameTableOk() && node in old(view) && dir in old(view) && node in view
      ensures (target != null ==> target in old(view)) && (err == 0 || err == NO_MEMORY)
      ensures view == if err == 0 then Rename(old(view), node, target, dir, newname)
                      else Unnamed(old(view), node, target)
    {
      hide Table.Valid, Inv, NamesHashed, Detach, IdsAre, RenameAllowed, Rename, Unnamed, Attach, UniqueOk;
      RenameStages(view, chains, root, node, target, dir, newname);
      if target != null { UnhashName(target, null); }
      UnhashName(node, null);
      UniqueIds(view, chains, root);
      err := HashName(node, newdir, newname, dir, view.Keys);
    }

    method Move(node: Node, target: Node?, newdir: nat, newname: string, ghost dir: Node) returns (err: int)
      requires Valid(null) && node != root && dir.nodeid == newdir
      requires RenameAllowed(view, chains, node, target, dir, newname)
      modifies this`view, this`chains, nameTable, idTable, nameTable.head, idTable.head
      modifies view.Keys`refctr, view.Keys`name, view.Keys`parent
      ensures Valid(null) && node in old(view) && dir in old(view) && node in view
      ensures (target != null ==> target in old(view)) && (err == 0 || err == NO_MEMORY)
      ensures view == if err == 0 then Rename(old(view), node, target, dir, newname)
                      else Unnamed(old(view), node, target)
      ensures old(Locks()) && err == 0 ==> (Locks() <==> RenameSafe(old(view), node, target, dir))
      ensures old(Locks()) && err != 0 ==>
                (Locks() <==> old(view)[node].treelock <= 0 && (target != null ==> old(view)[target].treelock <= 0))
    {
      hide Table.Valid, Inv, NamesHashed, LocksOk, Detach, IdsAre, RenameAllowed, Rename, Unnamed;
      ghost var v, c := view, chains;
      err := Rehash(node, target, newdir, newname, dir);
      if err == 0 {
        chains := RenameKeeps(v, c, root, node, target, dir, newname);
        if old(Locks()) { RenameKeepsLocks(v, c, root, held, node, target, dir, newname, chains); }
      } else {
        chains := UnnamedKeeps(v, c, root, node, target, dir, newname);
        if old(Locks()) { UnnamedKeepsLocks(v, c, root, held, node, target, dir, newname, chains); }
      }
    }

    // ----- path locks

    method SetLock(node: Node, k: int, t: int)
      requires Sync() && node in view
      modifies this`view, node`treelock, node`ticket
      ensures Sync() && view == WithLock(old(view), node, k) && Given() == old(Given())[node := t]
    {
      assert view[node] == RecOf(node);
      node.treelock := k;
      node.ticket := t;
      view := view[node := RecOf(node)];
    }

    method FindStart(nodeid: nat, ghost start: Node, ghost v: View) returns (n: Node)
      requires IdsAre(v.Keys) && UniqueOk(v) && start in v && start.nodeid == nodeid
      ensures n == start
    {
      var m := GetNode(nodeid, v.Keys);
      n := m;
      assert Clash(v, n, start);
    }

    /** What request each live node is reserved for. */
    ghost function Given(): (given: Tickets)
      reads this`view, view.Keys`ticket
      ensures given.Keys == view.Keys
    {
      map n | n in view :: n.ticket
    }

    /** unlock_path, whose walk up from start meets nodes and then end, or the root if end is null. Its
        run-time assertions are the preconditions on the treelocks. */
    method UnlockPath(nodeid: nat, wnode: Node?, end: Node?, ticket: int, ghost start: Node, ghost nodes: seq<Node>)
      requires Sync() && IdTableOk() && Inv(view, chains, root, null)
      requires start in view && start in chains && start.nodeid == nodeid && IsWalk(chains[start], nodes, end, root)
      requires forall n :: n in nodes ==> n in view && view[n].treelock > 0
      requires wnode != null ==> wnode in view && wnode !in nodes
      requires wnode != null ==> view[wnode].treelock == -1
      modifies this`view, view.Keys`treelock, view.Keys`ticket
      ensures Sync() && view == Unlocked(old(view), nodes, wnode)
      ensures Given() == Reserve(old(Given()), nodes, wnode, ticket)
    {
      hide Sync, IdsAre, Inv, Unlocked, IsWalk, Given, Reserve, UniqueOk;
      ghost var v, s, given := view, chains[start], Given();
      LockStart(v, wnode);
      ReleaseWriter(wnode, ticket);
      UniqueIds(v, chains, root);
      assert IdsAre(v.Keys);
      var node: Node? := FindStart(nodeid, start, v);
      ghost var i := 0;
      WalkStart(v, chains, root, start, nodes, end);
      while node != end && node.nodeid != ROOT_ID
        invariant 0 <= i <= |nodes| && node == s[i]
        invariant Sync() && view == Unlocked(v, nodes[..i], wnode)
        invariant Given() == Reserve(given, nodes[..i], wnode, ticket)
        decreases |nodes| - i
      {
        WalkStep(v, chains, root, start, nodes, end, i);
        node := ReleaseReader(node, ticket, v, given, nodes, i, wnode);
        i := i + 1;
      }
      WalkEnd(v, chains, root, start, nodes, end, i);
      assert nodes[..i] == nodes;
    }

    lemma InSync(n: Node)
      requires Sync() && n in view
      ensures view[n] == RecOf(n)
    {}

    method ReleaseWriter(wnode: Node?, ticket: int)
      requires Sync() && (wnode != null ==> wnode in view)
      modifies this`view, view.Keys`treelock, view.Keys`ticket
      ensures Sync() && view == if wnode == null then old(view) else WithLock(old(view), wnode, 0)
      ensures Given() == Reserve(old(Given()), [], wnode, ticket)
    {
      hide Sync, WithLock;
      if wnode != null { var next := ReleaseOne(wnode, 0, ticket); }
    }

    method ReleaseReader(node: Node, ticket: int, ghost v: View, ghost given: Tickets, ghost nodes: seq<Node>,
                         ghost i: nat, ghost wnode: Node?) returns (next: Node?)
      requires Sync() && i < |nodes| && node == nodes[i] && node in v && node !in nodes[..i] && node != wnode
      requires view == Unlocked(v, nodes[..i], wnode) && Given() == Reserve(given, nodes[..i], wnode, ticket)
      modifies this`view, view.Keys`treelock, view.Keys`ticket
      ensures Sync() && view == Unlocked(v, nodes[..i + 1], wnode) && next == v[node].parent
      ensures Given() == Reserve(given, nodes[..i + 1], wnode, ticket)
    {
      UnlockStep(v, nodes, i, wnode);
      ReserveNext(given, nodes, i, wnode, ticket);
      InSync(node);
      hide Sync, WithLock, Unlocked, Reserve, Given;
      next := ReleaseOne(node, node.treelock - 1, ticket);
    }

    /** unlock_path at one node; the next one is its parent. */
    method ReleaseOne(node: Node, k: int, ticket: int) returns (next: Node?)
      requires Sync() && node in view
      modifies this`view, node`treelock, node`ticket
      ensures Sync() && view == WithLock(old(view), node, k) && next == old(view)[node].parent
      ensures Given() == old(Given())[node := if old(Given())[node] == 0 then ticket else old(Given())[node]]
    {
      assert view[node] == RecOf(node);
      SetLock(node, k, if node.ticket == 0 then ticket else node.ticket);
      next := node.parent;
    }

    /** try_get_path at one node: err is 0 when the node's name is in front of the text and the node is
        locked for reading. */
    method ClimbOne(node: Node, buf: array<char>, s: nat, ticket: int)
      returns (err: int, newbuf: array<char>, start: nat, next: Node?)
      requires Sync() && node in view && 0 < buf.Length <= MAX_SIZE && s <= buf.Length
      requires node.name.Some? ==> buf.Length - s + |node.name.value| + 1 <= MAX_SIZE
      modifies this`view, node`treelock, node`ticket, buf
      ensures Sync() && (newbuf == buf || fresh(newbuf)) && 0 < newbuf.Length <= MAX_SIZE && start <= newbuf.Length
      ensures err == ENOENT <==> old(view)[node].name == None || old(view)[node].parent == null
      ensures err == EAGAIN ==> old(view)[node].treelock == -1 || Reserved(old(Given()), node, ticket)
      ensures err == 0 || err == ENOENT || err == ENOMEM || err == EAGAIN
      ensures err != 0 ==> view == old(view) && Given() == old(Given())
      ensures err == 0 ==> old(view)[node].treelock != -1 && !Reserved(old(Given()), node, ticket)
      ensures err == 0 ==> next == old(view)[node].parent && Given() == old(Given())[node := 0]
      ensures err == 0 ==> view == WithLock(old(view), node, old(view)[node].treelock + 1)
      ensures err == 0 ==> old(view)[node].name.Some? &&
                           newbuf[start..] == ['/'] + old(view)[node].name.value + old(buf[s..])
    {
      assert view[node] == RecOf(node);
      newbuf, start, next := buf, s, null;
      if node.name == None || node.parent == null { return ENOENT, buf, s, null; }
      var ok;
      ok, newbuf, start := AddName(buf, s, node.name.value);
      if !ok { return ENOMEM, newbuf, start, null; }
      if node.treelock == -1 || (node.ticket != 0 && node.ticket != ticket) { return EAGAIN, newbuf, start, null; }
      SetLock(node, node.treelock + 1, 0);
      next := node.parent;
      err := 0;
    }

    /** Where the loop of try_get_path stands: at node, the i-th of the chain of start, with the names below it
        in buf and the nodes below it locked. v is the view before the attempt. */
    ghost predicate Standing(v: View, start: Node, tail: string, i: nat, wnode: Node?, node: Node?, buf: array<char>,
                             s: nat)
      reads this`view, this`chains, this`held, view.Keys, buf
    {
      && Inv(v, chains, root, null) && LocksOk(v, chains, root, held) && Climbed(v, chains, start, i, wnode)
      && start in v && start in chains && i < |chains[start]| && (wnode != null ==> wnode in v)
      && |PathText(v, chains[start][..|chains[start]| - 1], tail)| < MAX_SIZE
      && node == chains[start][i] && node in v && Sync() && view == Locked(v, chains[start][..i], wnode)
      && 0 < buf.Length <= MAX_SIZE && s <= buf.Length
      && buf[s..] == PathText(v, chains[start][..i], tail) + ['\0']
    }

    /** ClimbOne, and what it does to the tickets. */
    method ClimbFairly(node: Node, buf: array<char>, s: nat, ticket: int,
                       ghost v: View, ghost given: Tickets, ghost way: seq<Node>, ghost i: nat, ghost wnode: Node?)
      returns (err: int, newbuf: array<char>, start: nat, next: Node?)
      requires Sync() && node in view && 0 < buf.Length <= MAX_SIZE && s <= buf.Length
      requires view[node].name.Some? ==> buf.Length - s + |view[node].name.value| + 1 <= MAX_SIZE
      requires i < |way| && way[i] == node && way[i] !in way[..i] && way[i] != wnode
      requires node in v && v[node].treelock == view[node].treelock && Given() == Used(given, way[..i], wnode)
      modifies this`view, node`treelock, node`ticket, buf
      ensures Sync() && (newbuf == buf || fresh(newbuf)) && 0 < newbuf.Length <= MAX_SIZE && start <= newbuf.Length
      ensures err == ENOENT <==> old(view)[node].name == None || old(view)[node].parent == null
      ensures err == 0 || err == ENOENT || err == ENOMEM || err == EAGAIN
      ensures err == EAGAIN ==> !Passable(v, given, [node], ticket)
      ensures err != 0 ==> view == old(view)
      ensures err == 0 ==> old(view)[node].treelock != -1 && next == old(view)[node].parent
      ensures err == 0 ==> view == WithLock(old(view), node, old(view)[node].treelock + 1)
      ensures err == 0 ==> old(view)[node].name.Some? &&
                           newbuf[start..] == ['/'] + old(view)[node].name.value + old(buf[s..])
      ensures err == 0 ==> Passable(v, given, [node], ticket) && Given() == Used(given, way[..i + 1], wnode)
      ensures err != 0 ==> Given() == Used(given, way[..i], wnode)
    {
      InSync(node);
      UsedNext(v, given, way, i, wnode, v[node].treelock, ticket);
      hide Sync, WithLock, Used, Passable, Given;
      err, newbuf, start, next := ClimbOne(node, buf, s, ticket);
    }

    /** The first i nodes of the way from start have let the request pass, which has used what was reserved for it. */
    ghost predicate Passed(v: View, given: Tickets, start: Node, i: nat, wnode: Node?, ticket: int)
      reads this`view, this`chains, view.Keys`ticket
    {
      && start in chains && i <= |chains[start]| && Passable(v, given, chains[start][..i], ticket)
      && Given() == Used(given, chains[start][..i], wnode)
    }

    /** It has given them back, reserved for itself. */
    ghost predicate Withdrawn(given: Tickets, start: Node, i: nat, wnode: Node?, ticket: int)
      reads this`view, this`chains, view.Keys`ticket
    {
      && start in chains && i <= |chains[start]|
      && Given() == Reserve(Used(given, chains[start][..i], wnode), chains[start][..i], wnode, ticket)
    }

    /** One turn of the loop, with the roll-back behind it. */
    method ClimbTurn(nodeid: nat, wnode: Node?, ticket: int, node: Node, buf: array<char>, s: nat,
                     ghost start: Node, ghost v: View, ghost tail: string, ghost i: nat, ghost given: Tickets)
      returns (err: int, newbuf: array<char>, news: nat, next: Node?)
      requires IdTableOk() && start.nodeid == nodeid && node.nodeid != ROOT_ID
      requires start in chains && node in v
      requires Standing(v, start, tail, i, wnode, node, buf, s)
      requires Passed(v, given, start, i, wnode, ticket) && wnode !in chains[start]
      modifies this`view, view.Keys`treelock, view.Keys`ticket, buf
      ensures newbuf == buf || fresh(newbuf)
      ensures err == 0 || err == ENOENT || err == ENOMEM || err == EAGAIN
      ensures err != 0 ==> Sync() && view == v
      ensures start in chains && node in v
      ensures err == ENOENT ==> v[node].parent == null
      ensures err == EAGAIN ==> i + 1 < |chains[start]| && !Passable(v, given, [node], ticket)
      ensures err == 0 ==> i + 1 < |chains[start]| && Standing(v, start, tail, i + 1, wnode, next, newbuf, news)
      ensures err == 0 ==> Passed(v, given, start, i + 1, wnode, ticket)
      ensures err != 0 ==> Withdrawn(given, start, i, wnode, ticket)
    {
      hide Sync, IdsAre, Inv, LocksOk, Locked, WithLock, Climbed, PathText, Given, IsWalk, Unlocked, Passable, Used,
           Reserve;
      ghost var c := chains[start];
      ClimbStep(v, chains, root, held, start, i, wnode);
      PassableNext(v, given, c, i, ticket);
      InSync(node);
      if v[node].name.Some? { ClimbRoom(v, chains, root, held, start, i, wnode, tail, MAX_SIZE); }
      err, newbuf, news, next := ClimbFairly(node, buf, s, ticket, v, given, c, i, wnode);
      if err != 0 {
        GiveUp(v, chains, root, start, i, wnode);
        UnlockPath(nodeid, wnode, node, ticket, start, c[..i]);
      } else {
        ClimbOn(v, chains, root, held, start, i, wnode);
        ClimbStep(v, chains, root, held, start, i + 1, wnode);
      }
    }

    /** ClimbTurn, and what it says of the whole way. */
    method ClimbNext(nodeid: nat, wnode: Node?, ticket: int, node: Node, buf: array<char>, s: nat,
                     ghost start: Node, ghost v: View, ghost tail: string, ghost i: nat, ghost given: Tickets)
      returns (err: int, newbuf: array<char>, news: nat, next: Node?)
      requires IdTableOk() && start.nodeid == nodeid && node.nodeid != ROOT_ID
      requires Standing(v, start, tail, i, wnode, node, buf, s)
      requires wnode !in chains[start] && Passed(v, given, start, i, wnode, ticket)
      modifies this`view, view.Keys`treelock, view.Keys`ticket, buf
      ensures newbuf == buf || fresh(newbuf)
      ensures err == 0 || err == ENOENT || err == ENOMEM || err == EAGAIN
      ensures err != 0 ==> Sync() && view == v
      ensures start in chains && |chains[start]| > 0
      ensures err == 0 ==> i + 1 < |chains[start]| && Standing(v, start, tail, i + 1, wnode, next, newbuf, news)
      ensures err == 0 ==> Passed(v, given, start, i + 1, wnode, ticket)
      ensures err != 0 ==> i < |chains[start]| && Stopped(v, given, chains, root, start, ticket, err, i)
      ensures err != 0 ==> Withdrawn(given, start, i, wnode, ticket)
    {
      hide Sync, IdsAre, Inv, LocksOk, Locked, Climbed, PathText, Passable, Below, Used, Reserve, Given,
           Withdrawn;
      err, newbuf, news, next := ClimbTurn(nodeid, wnode, ticket, node, buf, s, start, v, tail, i, given);
      if err == ENOENT { ClimbLost(v, chains, root, start, i, wnode); }
    }

    lemma AtTop(v: View, start: Node, tail: string, i: nat, wnode: Node?, given: Tickets, ticket: int)
      requires Inv(v, chains, root, null) && LocksOk(v, chains, root, held) && Climbed(v, chains, start, i, wnode)
      requires chains[start][i].nodeid == ROOT_ID && Passed(v, given, start, i, wnode, ticket)
      requires tail == "" || tail[0] == '/'
      ensures |chains[start]| == i + 1 && Below(chains, start) == chains[start][..i] &&
              chains[start] == Below(chains, start) + [root]
      ensures Passable(v, given, Below(chains, start), ticket) && Given() == Used(given, Below(chains, start), wnode)
      ensures PathText(v, Below(chains, start), tail) == "" || PathText(v, Below(chains, start), tail)[0] == '/'
    {
      hide RefOk, LockOk, NameOk, LinkOk, HoldOk, Passable, Used, Given;
      ClimbTop(v, chains, root, held, start, i, wnode);
      PathTextSlash(v, chains[start][..i], tail);
    }

    /** The loop of try_get_path. */
    method Climb(nodeid: nat, wnode: Node?, ticket: int, buf0: array<char>, s0: nat,
                 ghost start: Node, ghost v: View, ghost tail: string, ghost given: Tickets)
      returns (err: int, path: string, ghost reached: nat)
      requires IdTableOk() && start.nodeid == nodeid && (tail == "" || tail[0] == '/')
      requires Standing(v, start, tail, 0, wnode, start, buf0, s0)
      requires wnode !in chains[start] && Passed(v, given, start, 0, wnode, ticket)
      modifies this`view, view.Keys`treelock, view.Keys`ticket, buf0
      ensures Sync() && (err == 0 || err == ENOENT || err == ENOMEM || err == EAGAIN)
      ensures err != 0 ==> view == v
      ensures start in chains && |chains[start]| > 0
      ensures err == 0 ==> Passable(v, given, Below(chains, start), ticket)
      ensures err == 0 ==> Given() == Used(given, Below(chains, start), wnode)
      ensures err != 0 ==> reached < |chains[start]| && Stopped(v, given, chains, root, start, ticket, err, reached)
      ensures err != 0 ==> Withdrawn(given, start, reached, wnode, ticket)
      ensures err == 0 ==> Climbed(v, chains, start, |chains[start]| - 1, wnode)
      ensures err == 0 ==> chains[start] == Below(chains, start) + [root]
      ensures err == 0 ==> view == Locked(v, Below(chains, start), wnode)
      ensures err == 0 ==> path == Shown(PathText(v, Below(chains, start), tail))
    {
      hide Sync, IdsAre, Inv, LocksOk, Locked, Climbed, PathText, Passed, Below, Passable, Used, Reserve, Given,
           Stopped;
      var buf, s: nat := buf0, s0;
      path, reached := "", 0;
      ClimbStart(v, chains, root, start, wnode);
      var node: Node? := FindStart(nodeid, start, v);
      while node.nodeid != ROOT_ID
        invariant node != null && Standing(v, start, tail, reached, wnode, node, buf, s)
        invariant buf == buf0 || fresh(buf)
        invariant Passed(v, given, start, reached, wnode, ticket)
        decreases |chains[start]| - reached
      {
        var next;
        err, buf, s, next := ClimbNext(nodeid, wnode, ticket, node, buf, s, start, v, tail, reached, given);
        if err != 0 { return; }
        node := next;
        reached := reached + 1;
      }
      AtTop(v, start, tail, reached, wnode, given, ticket);
      path := Finish(buf, s, PathText(v, chains[start][..reached], tail));
      err := 0;
    }

    /** The end of try_get_path: the text without its terminator, or "/" for the root itself. */
    method Finish(buf: array<char>, s: nat, ghost text: string) returns (path: string)
      requires s <= buf.Length && buf[s..] == text + ['\0'] && (text == "" || text[0] == '/')
      ensures path == Shown(text)
    {
      assert |buf[s..]| == |text| + 1 && buf[s] == (text + ['\0'])[0];
      path := if buf[s] != '\0' then buf[s..buf.Length - 1] else "/";
      assert buf[s..] == buf[s..buf.Length - 1] + [buf[buf.Length - 1]];
    }

    /** The write lock of try_get_path on the entry (nodeid, name), if there is such a node. */
    method LockEntry(nodeid: nat, name: string, ticket: int) returns (err: int, wnode: Node?)
      requires Sync() && NameTableOk() && GoodName(name)
      modifies this`view, view.Keys`treelock, view.Keys`ticket
      ensures Sync() && (err == 0 || err == EAGAIN)
      ensures wnode != null ==> IsEntry(old(view), wnode, nodeid, name)
      ensures wnode == null ==> err == 0 && forall n :: n in old(view) ==> !IsEntry(old(view), n, nodeid, name)
      ensures err == EAGAIN ==> view == old(view)
      ensures err == EAGAIN ==> old(view)[wnode].treelock != 0 || Reserved(old(Given()), wnode, ticket)
      ensures err == 0 && wnode != null ==> old(view)[wnode].treelock == 0 && !Reserved(old(Given()), wnode, ticket)
      ensures Given() == if err == 0 then Used(old(Given()), [], wnode) else Reserve(old(Given()), [], wnode, ticket)
      ensures err == 0 ==> view == Locked(old(view), [], wnode)
    {
      hide NamesHashed, Table.Valid, Locked, Used, Reserve;
      ghost var v := view;
      wnode := LookupNode(nodeid, name);
      LockStart(v, wnode);
      EntryOnly(Given(), wnode, ticket);
      err := 0;
      if wnode != null {
        InSync(wnode);
        if wnode.treelock != 0 || (wnode.ticket != 0 && wnode.ticket != ticket) {
          if wnode.ticket == 0 { wnode.ticket := ticket; }
          return EAGAIN, wnode;
        }
        SetLock(wnode, -1, 0);
      }
    }

    /** try_get_path, with a ticket from get_ticket, which is never 0. On success the path is held under h; on
        failure every treelock is as before. */
    method TryGetPath(nodeid: nat, name: Option<string>, wr: bool, ticket: int, ghost start: Node, ghost h: nat)
      returns (err: int, path: string, wnode: Node?, ghost reached: nat)
      requires Valid(null) && Locks() && h !in held && ticket != 0
      requires start in view && start.nodeid == nodeid && Fits(view, chains, start, name, MAX_SIZE)
      requires (wr ==> name.Some?) && (name.Some? ==> GoodName(name.value))
      modifies this`view, this`held, view.Keys`treelock, view.Keys`ticket
      ensures Valid(null) && Locks() && chains == old(chains)
      ensures err == 0 || err == ENOENT || err == ENOMEM || err == EAGAIN
      ensures err != 0 ==> view == old(view) && held == old(held)
      ensures start in chains && |chains[start]| > 0
      ensures err == 0 || err == EAGAIN ==>
                (err == 0 <==> Unbarred(old(view), old(Given()), chains, start, name, wr, ticket))
      ensures Ended(old(view), old(Given()), chains, root, start, name, wr, ticket, err, wnode, reached)
      ensures Given() == TicketsAfter(old(view), old(Given()), chains, start, name, wr, ticket, err, wnode, reached)
      ensures err == 0 ==>
                chains[start] == Below(chains, start) + [root] && path == TextFrom(old(view), chains, start, name)
      ensures err == 0 ==> held == old(held)[h := Hold(start, Below(chains, start), wnode)]
      ensures err == 0 ==> view == Locked(old(view), Below(chains, start), wnode)
      ensures err == 0 && wnode != null ==> wnode in old(view) && old(view)[wnode].treelock == 0
    {
      hide Table.Valid, Valid, Locks, Locked, PathText, Ended, TicketsAfter, Given, Unbarred, Below, TextFrom;
      reached := 0;
      NotBegun(view, Given(), chains, root, start, name, wr, ticket);
      if * { return ENOMEM, "", null, 0; }
      var buf := new char[256];
      var s: nat := buf.Length - 1;
      buf[s] := '\0';
      path, wnode, err := "", null, 0;
      if name.Some? {
        var ok;
        ok, buf, s := AddName(buf, s, name.value);
        if !ok { return ENOMEM, "", null, 0; }
      }
      ghost var v, given := view, Given();
      err, path, wnode, reached := LockAndClimb(nodeid, name, wr, ticket, buf, s, start, h);
      UnbarredOrNot(v, given, chains, root, start, name, wr, ticket, err, wnode, reached);
    }

    lemma OnChain(v: View, start: Node)
      requires Inv(v, chains, root, null) && start in v
      ensures start in chains && |chains[start]| > 0 && forall n :: n in chains[start] ==> n in v
    {
      HeadIsSelf(v, chains, start);
      ChainLive(v, chains, start);
    }

    lemma Claimed(v: View, given: Tickets, start: Node, w: Node, name: string, ticket: int)
      requires Inv(v, chains, root, null) && start in v && IsEntry(v, w, start.nodeid, name)
      ensures Claimable(v, given, start.nodeid, name, ticket) <==> v[w].treelock == 0 && !Reserved(given, w, ticket)
      ensures w !in chains[start]
    {
      ClaimOne(v, chains, given, w, start.nodeid, name, ticket);
      EntryNotAbove(v, chains, root, start, w, name);
    }

    /** The write lock of try_get_path, if it takes one; the way from start is as it was. */
    method Claim(nodeid: nat, name: Option<string>, wr: bool, ticket: int, ghost start: Node)
      returns (err: int, wnode: Node?)
      requires Sync() && NameTableOk() && Inv(view, chains, root, null)
      requires start in view && start.nodeid == nodeid && (wr ==> name.Some? && GoodName(name.value))
      modifies this`view, view.Keys`treelock, view.Keys`ticket
      ensures Sync() && start in chains && |chains[start]| > 0
      ensures err == 0 || err == EAGAIN
      ensures err != 0 ==> view == old(view)
      ensures err != 0 ==> Ended(old(view), old(Given()), chains, root, start, name, wr, ticket, err, wnode, 0)
      ensures err != 0 ==>
                Given() == TicketsAfter(old(view), old(Given()), chains, start, name, wr, ticket, err, wnode, 0)
      ensures err == 0 ==> HasEntry(old(view), old(Given()), start, name, wr, ticket, wnode)
      ensures wnode != null ==> wnode in old(view)
      ensures err == 0 ==> view == Locked(old(view), [], wnode) && Climbed(old(view), chains, start, 0, wnode)
      ensures err == 0 ==> wnode !in chains[start] && Passed(old(view), old(Given()), start, 0, wnode, ticket)
    {
      hide Table.Valid, NamesHashed, Inv, Locked, Climbed, GoodName, Used, Reserve, Given, Ended, TicketsAfter;
      ghost var v, given := view, Given();
      OnChain(v, start);
      wnode, err := null, 0;
      if wr {
        err, wnode := LockEntry(nodeid, name.value, ticket);
        if wnode != null { Claimed(v, given, start, wnode, name.value, ticket); }
        if err != 0 {
          EntryBarred(v, given, chains, root, start, name, ticket, wnode);
          return err, wnode;
        }
      } else {
        LockStart(v, null);
        EntryOnly(given, null, ticket);
      }
      CanClimb(v, chains, root, start, wnode);
      assert chains[start][0..] == chains[start];
    }

    /** The locking of try_get_path, once the name is in the buffer. */
    method Acquire(nodeid: nat, name: Option<string>, wr: bool, ticket: int, buf: array<char>, s: nat,
                   ghost start: Node)
      returns (err: int, path: string, wnode: Node?, ghost reached: nat)
      requires Sync() && IdTableOk() && NameTableOk()
      requires Inv(view, chains, root, null) && LocksOk(view, chains, root, held)
      requires start in view && start.nodeid == nodeid && Fits(view, chains, start, name, MAX_SIZE)
      requires (wr ==> name.Some?) && (name.Some? ==> GoodName(name.value))
      requires 0 < buf.Length <= MAX_SIZE && s <= buf.Length && buf[s..] == Tail(name) + ['\0']
      modifies this`view, view.Keys`treelock, view.Keys`ticket, buf
      ensures Sync() && (err == 0 || err == ENOENT || err == ENOMEM || err == EAGAIN)
      ensures err != 0 ==> view == old(view)
      ensures start in chains && |chains[start]| > 0
      ensures Ended(old(view), old(Given()), chains, root, start, name, wr, ticket, err, wnode, reached)
      ensures Given() == TicketsAfter(old(view), old(Given()), chains, start, name, wr, ticket, err, wnode, reached)
      ensures err == 0 ==> Climbed(old(view), chains, start, |chains[start]| - 1, wnode)
      ensures err == 0 ==>
                chains[start] == Below(chains, start) + [root] && path == TextFrom(old(view), chains, start, name)
      ensures err == 0 ==> view == Locked(old(view), Below(chains, start), wnode)
    {
      hide Sync, NameTableOk, Inv, LocksOk, Locked, PathText, IdsAre, Climbed, GoodName, Passed, Passable, Claimable,
           Below, Used, Reserve, Given, IsEntry, Stopped, Ended, TicketsAfter, HasEntry;
      ghost var v, given := view, Given();
      FitsInChains(v, chains, start, name, MAX_SIZE);
      path, reached := "", 0;
      err, wnode := Claim(nodeid, name, wr, ticket, start);
      if err != 0 { return; }
      ClimbStart(v, chains, root, start, wnode);
      PathTextOfNone(v, Tail(name));
      err, path, reached := Climb(nodeid, wnode, ticket, buf, s, start, v, Tail(name), given);
      if err == 0 {
        NothingBarred(v, given, chains, root, start, name, wr, ticket, wnode, reached);
      } else {
        WayBarred(v, given, chains, root, start, name, wr, ticket, err, wnode, reached);
      }
    }

    /** try_get_path once the name is in the buffer. */
    method LockAndClimb(nodeid: nat, name: Option<string>, wr: bool, ticket: int, buf: array<char>, s: nat,
                        ghost start: Node, ghost h: nat)
      returns (err: int, path: string, wnode: Node?, ghost reached: nat)
      requires Valid(null) && Locks() && h !in held
      requires start in view && start.nodeid == nodeid && Fits(view, chains, start, name, MAX_SIZE)
      requires (wr ==> name.Some?) && (name.Some? ==> GoodName(name.value))
      requires 0 < buf.Length <= MAX_SIZE && s <= buf.Length && buf[s..] == Tail(name) + ['\0']
      modifies this`view, this`held, view.Keys`treelock, view.Keys`ticket, buf
      ensures Valid(null) && Locks() && chains == old(chains)
      ensures err == 0 || err == ENOENT || err == ENOMEM || err == EAGAIN
      ensures err != 0 ==> view == old(view) && held == old(held)
      ensures start in chains && |chains[start]| > 0
      ensures Ended(old(view), old(Given()), chains, root, start, name, wr, ticket, err, wnode, reached)
      ensures Given() == TicketsAfter(old(view), old(Given()), chains, start, name, wr, ticket, err, wnode, reached)
      ensures err == 0 ==>
                chains[start] == Below(chains, start) + [root] && path == TextFrom(old(view), chains, start, name)
      ensures err == 0 ==> held == old(held)[h := Hold(start, Below(chains, start), wnode)]
      ensures err == 0 ==> view == Locked(old(view), Below(chains, start), wnode)
      ensures err == 0 && wnode != null ==> wnode in old(view) && old(view)[wnode].treelock == 0
    {
      hide Table.Valid, NamesHashed, Inv, LocksOk, Locked, PathText, IdsAre, Climbed, GoodName, Below, Fits, TextFrom,
           Ended, TicketsAfter, Given, Sync;
      ghost var v := view;
      err, path, wnode, reached := Acquire(nodeid, name, wr, ticket, buf, s, start);
      if err == 0 {
        ClimbIndex(v, chains, start, |chains[start]| - 1, wnode);
        Keep(v, start, wnode, h);
      }
    }

    /** The locked path is held from now on. */
    method Keep(ghost v: View, ghost start: Node, ghost wnode: Node?, ghost h: nat)
      requires Apart() && Sync() && IdsAre(v.Keys) && h !in held
      requires nameTable.Valid() && nameTable.head.Length == TABLE_SIZE && NamesHashed(v, nameTable.home)
      requires Inv(v, chains, root, null) && LocksOk(v, chains, root, held)
      requires start in chains && |chains[start]| > 0 && Climbed(v, chains, start, |chains[start]| - 1, wnode)
      requires chains[start] == Below(chains, start) + [root] && view == Locked(v, Below(chains, start), wnode)
      modifies this`held
      ensures Valid(null) && Locks() && held == old(held)[h := Hold(start, Below(chains, start), wnode)]
    {
      hide Table.Valid, NamesHashed, Inv, LocksOk, Locked, IdsAre, Climbed, Below, Sync;
      ClimbDone(v, chains, root, held, start, wnode, h);
      LockedKeepsHashed(v, Below(chains, start), wnode, nameTable.home);
      held := held[h := Hold(start, Below(chains, start), wnode)];
    }

    /** unlock_path of a whole held path, as free_path_wrlock (ticket 0) and try_get_path2 call it: it releases
        exactly the nodes the acquisition locked. */
    method Release(nodeid: nat, wnode: Node?, ticket: int, ghost h: nat)
      requires Valid(null) && Locks()
      requires h in held && held[h].start.nodeid == nodeid && held[h].wnode == wnode
      modifies this`view, this`held, view.Keys`treelock, view.Keys`ticket
      ensures Valid(null) && Locks() && chains == old(chains) && held == old(held) - {h}
      ensures view == Unlocked(old(view), old(held)[h].nodes, wnode)
      ensures Given() == Reserve(old(Given()), old(held)[h].nodes, wnode, ticket)
    {
      hide Table.Valid, NamesHashed, Inv, LocksOk, Unlocked, IdsAre, IsWalk, Reserve, Given, Sync;
      ghost var d, v := held[h], view;
      CanRelease(v, chains, root, held, h);
      UnlockedKeepsHashed(v, d.nodes, wnode, nameTable.home);
      UnlockPath(nodeid, wnode, null, ticket, d.start, d.nodes);
      held := held - {h};
    }

    /** try_get_path2: both paths, or neither. */
    method TryGetPath2(nodeid1: nat, name1: Option<string>, wr1: bool, nodeid2: nat, name2: Option<string>, wr2: bool,
                       ticket: int, ghost start1: Node, ghost h1: nat, ghost start2: Node, ghost h2: nat)
      returns (err: int, path1: string, path2: string, wnode1: Node?, wnode2: Node?, ghost first: bool,
               ghost reached: nat)
      requires Valid(null) && Locks() && h1 !in held && h2 !in held && h1 != h2 && ticket != 0
      requires start1 in view && start1.nodeid == nodeid1 && Fits(view, chains, start1, name1, MAX_SIZE)
      requires start2 in view && start2.nodeid == nodeid2 && Fits(view, chains, start2, name2, MAX_SIZE)
      requires (wr1 ==> name1.Some?) && (name1.Some? ==> GoodName(name1.value))
      requires (wr2 ==> name2.Some?) && (name2.Some? ==> GoodName(name2.value))
      modifies this`view, this`held, view.Keys`treelock, view.Keys`ticket
      ensures chains == old(chains)
      ensures start1 in chains && |chains[start1]| > 0 && start2 in chains && |chains[start2]| > 0
      ensures err == 0 || err == ENOENT || err == ENOMEM || err == EAGAIN
      ensures err != 0 ==> view == old(view) && held == old(held)
      ensures err == 0 ==> held == old(held)[h1 := Hold(start1, Below(chains, start1), wnode1)]
                                            [h2 := Hold(start2, Below(chains, start2), wnode2)]
      ensures err == 0 ==> path1 == TextFrom(old(view), chains, start1, name1)
      ensures err == 0 ==> path2 == TextFrom(old(view), chains, start2, name2)
      ensures !first ==>
                FirstFailed(old(view), old(Given()), chains, root, start1, name1, wr1, ticket, err, wnode1, reached,
                            Given())
      ensures first ==> Ended(old(view), old(Given()), chains, root, start1, name1, wr1, ticket, 0, wnode1, 0)
      ensures first ==>
                SecondEnded(old(view), old(Given()), chains, root, start1, wnode1, start2, name2, wr2, ticket, err,
                            wnode2, reached, Given())
      ensures err == 0 || err == EAGAIN ==>
                (err == 0 <==> && Unbarred(old(view), old(Given()), chains, start1, name1, wr1, ticket)
                               && Unbarred(old(view), old(Given()), chains, start2, name2, wr2, ticket)
                               && Compatible(old(view), chains, start1, wnode1, start2, name2, wr2))
      ensures Valid(null) && Locks()
    {
      hide Table.Valid, Valid, Locks, Inv, LocksOk, Locked, Unlocked, GoodName, Fits, TextFrom, Below, Given, Unbarred,
           Compatible, Ended, TicketsAfter, Used, Reserve;
      ghost var v, hs, given := view, held, Given();
      path2, wnode2, first := "", null, false;
      Unfolded();
      FitsInChains(v, chains, start2, name2, MAX_SIZE);
      err, path1, wnode1, reached := TryGetPath(nodeid1, name1, wr1, ticket, start1, h1);
      if err == 0 {
        first := true;
        ghost var nodes := Below(chains, start1);
        LockedKeepsFits(v, chains, nodes, wnode1, start2, name2, MAX_SIZE);
        SecondAttempt(v, given, chains, root, hs, start1, name1, wr1, wnode1, reached, start2, name2, wr2, ticket);
        err, path2, wnode2, reached := TryGetPath(nodeid2, name2, wr2, ticket, start2, h2);
        if err != 0 {
          GivesBack(h1);
          UnlockUndoesLock(v, nodes, wnode1);
          Release(nodeid1, wnode1, ticket, h1);
          assert held == hs;
        }
      }
    }

    lemma Unfolded()
      requires Valid(null) && Locks()
      ensures Inv(view, chains, root, null) && LocksOk(view, chains, root, held)
    {}

    lemma GivesBack(h: nat)
      requires Locks() && h in held
      ensures held[h].wnode != null ==> held[h].wnode !in held[h].nodes
    {
      HeldApart(view, chains, root, held, h);
    }
  }
}
