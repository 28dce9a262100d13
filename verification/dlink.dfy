/** Doubly linked lists whose nodes belong to the caller (dlink.c:56-192). */
module Dlink {
  import opened Wrappers

  class Node<T> {
    var data: Option<T>
    var next: Node?<T>
    var prev: Node?<T>

    /** dlink_create. */
    constructor ()
      ensures data == None && next == null && prev == null
    {
      data, next, prev := None, null, null;
    }
  }

  ghost function SetOf<T>(s: seq<T>): set<T> {
    set x | x in s
  }

  ghost function AtOrNull<T>(s: seq<Node<T>>, i: int): Node?<T> {
    if 0 <= i < |s| then s[i] else null
  }

  function Insert<T>(s: seq<T>, k: nat, x: T): seq<T>
    requires k <= |s|
  {
    s[..k] + [x] + s[k..]
  }

  function Cut<T>(s: seq<T>, k: nat): seq<T>
    requires k < |s|
  {
    s[..k] + s[k + 1..]
  }

  ghost function IndexOf<T>(s: seq<T>, x: T): (k: nat)
    requires x in s
    ensures k < |s| && s[k] == x && x !in s[..k]
  {
    if s[0] == x then 0 else 1 + IndexOf(s[1..], x)
  }

  class DList<T(==)> {
    var head: Node?<T>
    var tail: Node?<T>
    var length: nat
    ghost var nodes: seq<Node<T>>

    /** The nodes are linked in both directions, in this order. */
    ghost predicate Valid()
      reads this, SetOf(nodes)`next, SetOf(nodes)`prev
    {
      && NoDup(nodes)
      && head == AtOrNull(nodes, 0)
      && tail == AtOrNull(nodes, |nodes| - 1)
      && length == |nodes|
      && forall i {:trigger Linked(i)} :: 0 <= i < |nodes| ==> Linked(i)
    }

    ghost predicate Linked(i: int)
      requires 0 <= i < |nodes|
      reads `nodes, SetOf(nodes)`next, SetOf(nodes)`prev
    {
      nodes[i].next == AtOrNull(nodes, i + 1) && nodes[i].prev == AtOrNull(nodes, i - 1)
    }

    constructor ()
      ensures Valid() && nodes == []
    {
      head, tail, length, nodes := null, null, 0, [];
    }

    /** dlink_add. */
    method Add(data: Option<T>, m: Node<T>)
      requires Valid() && m !in nodes
      modifies this, m, SetOf(nodes)`prev
      ensures Valid() && nodes == [m] + old(nodes) && m.data == data
    {
      assert head != null ==> Linked(0);
      m.data := data;
      m.next := head;
      m.prev := null;
      if head != null {
        head.prev := m;
      } else if tail == null {
        tail := m;
      }
      head := m;
      length := length + 1;
      nodes := [m] + nodes;
      forall i | 0 <= i < |nodes| ensures Linked(i) {
        assert i > 0 ==> old(Linked(i - 1));
      }
    }

    /** dlink_add_tail. */
    method AddTail(data: Option<T>, m: Node<T>)
      requires Valid() && m !in nodes
      modifies this, m, SetOf(nodes)`next
      ensures Valid() && nodes == old(nodes) + [m] && m.data == data
    {
      m.data := data;
      m.next := null;
      m.prev := tail;
      if head == null {
        head := m;
      } else if tail != null {
        tail.next := m;
      }
      tail := m;
      length := length + 1;
      nodes := nodes + [m];
      forall i | 0 <= i < |nodes| ensures Linked(i) {
        assert i < |old(nodes)| ==> old(Linked(i));
      }
    }

    /** dlink_add_before. */
    method AddBefore(b: Node<T>, data: Option<T>, m: Node<T>)
      requires Valid() && b in nodes && m !in nodes
      modifies this, m, SetOf(nodes)`next, SetOf(nodes)`prev
      ensures Valid() && m.data == data
      ensures nodes == Insert(old(nodes), IndexOf(old(nodes), b), m)
    {
      ghost var k := IndexOf(nodes, b);
      assert Linked(k);
      if b == head {
        Add(data, m);
        assert nodes == Insert(old(nodes), 0, m);
      } else {
        m.data := data;
        assert nodes[k - 1] == b.prev;
        b.prev.next := m;
        m.prev := b.prev;
        b.prev := m;
        m.next := b;
        length := length + 1;
        nodes := Insert(nodes, k, m);
        forall i | 0 <= i < |nodes| ensures Linked(i) {
          assert i < k ==> old(Linked(i));
          assert i > k ==> old(Linked(i - 1));
        }
      }
    }

    /** dlink_delete: the node itself keeps its links. */
    method Delete(m: Node<T>)
      requires Valid() && m in nodes
      modifies this, SetOf(nodes)`next, SetOf(nodes)`prev
      ensures Valid() && nodes == Cut(old(nodes), IndexOf(old(nodes), m))
      ensures m.next == old(m.next) && m.prev == old(m.prev)
    {
      ghost var k := IndexOf(nodes, m);
      assert Linked(k);
      if m.prev == null {
        head := m.next;
      } else {
        m.prev.next := m.next;
      }
      if m.next == null {
        tail := m.prev;
      } else {
        m.next.prev := m.prev;
      }
      length := length - 1;
      nodes := Cut(nodes, k);
      forall i | 0 <= i < |nodes| ensures Linked(i) {
        assert i < k ==> old(Linked(i));
        assert i >= k ==> old(Linked(i + 1));
      }
    }

    /** dlink_find: the first node with the data. */
    method Find(data: Option<T>) returns (p: Node?<T>)
      requires Valid()
      ensures p == null ==> forall n :: n in nodes ==> n.data != data
      ensures p != null ==>
                p in nodes && p.data == data && forall n :: n in nodes[..IndexOf(nodes, p)] ==> n.data != data
    {
      p := head;
      ghost var k := 0;
      while p != null
        invariant k <= |nodes| && p == AtOrNull(nodes, k)
        invariant forall i :: 0 <= i < k ==> nodes[i].data != data
        decreases |nodes| - k
      {
        assert Linked(k);
        if p.data == data {
          assert nodes[..k] == nodes[..IndexOf(nodes, p)];
          return;
        }
        p := p.next;
        k := k + 1;
      }
    }

    /** dlink_find_delete: unlike dlink_delete it resets the node's links. */
    method FindDelete(data: Option<T>) returns (p: Node?<T>)
      requires Valid()
      modifies this, SetOf(nodes)`next, SetOf(nodes)`prev
      ensures Valid()
      ensures p == null ==> nodes == old(nodes) && forall n :: n in nodes ==> n.data != data
      ensures p != null ==>
        && p in old(nodes) && p.data == data && p.next == null && p.prev == null
        && nodes == Cut(old(nodes), IndexOf(old(nodes), p))
        && forall n :: n in old(nodes)[..IndexOf(old(nodes), p)] ==> n.data != data
    {
      p := Find(data);
      if p != null {
        Unlink(p);
        label unlinked:
        p.next, p.prev := null, null;
        forall i | 0 <= i < |nodes| ensures Linked(i) {
          assert old@unlinked(Linked(i)) && nodes[i] in nodes;
        }
      }
    }

    /** The lines that dlink_find_delete and dlink_move share. */
    method Unlink(m: Node<T>)
      requires Valid() && m in nodes
      modifies this, SetOf(nodes)`next, SetOf(nodes)`prev
      ensures Valid() && nodes == Cut(old(nodes), IndexOf(old(nodes), m)) && m !in nodes
      ensures forall n :: n in nodes ==> n in old(nodes)
    {
      CutOne(nodes, m);
      ghost var k := IndexOf(nodes, m);
      assert Linked(k);
      if m.next != null {
        m.next.prev := m.prev;
      } else {
        tail := m.prev;
      }
      if m.prev != null {
        m.prev.next := m.next;
      } else {
        head := m.next;
      }
      length := length - 1;
      nodes := Cut(nodes, k);
      forall i | 0 <= i < |nodes| ensures Linked(i) {
        assert i < k ==> old(Linked(i));
        assert i >= k ==> old(Linked(i + 1));
      }
    }

    /** dlink_move, which may also bring a node to the front of its own list. */
    static method Move(m: Node<T>, oldlist: DList<T>, newlist: DList<T>)
      requires oldlist.Valid() && newlist.Valid() && m in oldlist.nodes
      requires oldlist != newlist ==> SetOf(oldlist.nodes) !! SetOf(newlist.nodes)
      modifies oldlist, newlist, SetOf(oldlist.nodes)`next, SetOf(oldlist.nodes)`prev, SetOf(newlist.nodes)`prev
      ensures oldlist.Valid() && newlist.Valid()
      ensures var rest := Cut(old(oldlist.nodes), IndexOf(old(oldlist.nodes), m));
              if oldlist == newlist then newlist.nodes == [m] + rest
              else oldlist.nodes == rest && newlist.nodes == [m] + old(newlist.nodes)
    {
      oldlist.Unlink(m);
      label unlinked:
      newlist.Push(m);
      if oldlist != newlist {
        forall i | 0 <= i < |oldlist.nodes| ensures oldlist.Linked(i) {
          assert old@unlinked(oldlist.Linked(i)) && oldlist.nodes[i] in oldlist.nodes;
        }
      }
    }

    method Push(m: Node<T>)
      requires Valid() && m !in nodes
      modifies this, m`next, m`prev, SetOf(nodes)`prev
      ensures Valid() && nodes == [m] + old(nodes)
    {
      assert head != null ==> Linked(0);
      m.prev := null;
      m.next := head;
      if head != null {
        head.prev := m;
      } else if tail == null {
        tail := m;
      }
      head := m;
      length := length + 1;
      nodes := [m] + nodes;
      forall i | 0 <= i < |nodes| ensures Linked(i) {
        assert i > 0 ==> old(Linked(i - 1));
      }
    }
  }

  lemma CutOne<T>(s: seq<T>, x: T)
    requires NoDup(s) && x in s
    ensures var c := Cut(s, IndexOf(s, x));
            NoDup(c) && x !in c && (forall y :: y in c ==> y in s) && SetOf(c) == SetOf(s) - {x}
  {}
}
