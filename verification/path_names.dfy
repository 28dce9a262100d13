/** Reading a path back: splitting it at the separators and looking the names up from the root leads to the
    node it was built for. */
module PathNames {
  import opened Wrappers
  import opened FuseNode
  import opened FuseView
  import opened PathLocks

  /** How far the first name of s reaches. */
  function NameEnd(s: string): (k: nat)
    ensures k <= |s|
    ensures forall i :: 0 <= i < k ==> s[i] != '/'
    ensures k < |s| ==> s[k] == '/'
  {
    if s == "" || s[0] == '/' then 0 else 1 + NameEnd(s[1..])
  }

  /** The names of a path, each behind a separator; the root's path has none. */
  function Components(path: string): seq<string>
    decreases |path|
  {
    if |path| <= 1 then []
    else
      var k := NameEnd(path[1..]);
      [path[1..][..k]] + Components(path[1 + k..])
  }

  /** What lookup_node finds. */
  ghost function Lookup(v: View, dir: nat, name: string): (n: Node?)
    ensures n != null ==> n in v && IsEntry(v, n, dir, name)
    ensures n == null ==> forall m :: m in v ==> !IsEntry(v, m, dir, name)
  {
    if exists m :: m in v && IsEntry(v, m, dir, name) then
      var m :| m in v && IsEntry(v, m, dir, name); m
    else null
  }

  /** Looking up names one after another, starting in the directory dir. */
  ghost function Walk(v: View, dir: Node, names: seq<string>): Node? {
    if names == [] then dir
    else
      var n := Lookup(v, dir.nodeid, names[0]);
      if n == null then null else Walk(v, n, names[1..])
  }

  lemma FirstComponent(name: string, rest: string)
    requires GoodName(name) && (rest == "" || rest[0] == '/')
    ensures Components(['/'] + name + rest) == [name] + Components(rest)
  {
    var path := ['/'] + name + rest;
    assert path[1..] == name + rest;
    var k := NameEnd(path[1..]);
    assert forall j :: 0 <= j < |name| ==> path[1..][j] == name[j];
    assert rest != "" ==> path[1..][|name|] == rest[0];
    assert path[1..][..k] == name && path[1 + k..] == rest;
  }

  /** From the k-th node of the chain the remaining names lead down to start, and on to the named entry. */
  lemma {:induction false} WalkDown(v: View, c: Chains, root: Node, start: Node, k: nat, tail: string)
    requires Inv(v, c, root, null) && start in v && k < |c[start]| && (tail == "" || tail[0] == '/')
    ensures Walk(v, c[start][k], Components(PathText(v, c[start][..k], tail))) == Walk(v, start, Components(tail))
  {
    hide RefOk;
    if k == 0 {
      HeadIsSelf(v, c, start);
      PathTextOfNone(v, tail);
      assert c[start][..0] == [];
    } else {
      var n, dir := c[start][k - 1], c[start][k];
      ChainStep(v, c, start, k - 1);
      assert NameOk(v, root, n);
      PathTextStep(v, c[start], k - 1, tail);
      PathTextSlash(v, c[start][..k - 1], tail);
      FirstComponent(v[n].name.value, PathText(v, c[start][..k - 1], tail));
      SameEntry(v, c, n, Lookup(v, dir.nodeid, v[n].name.value), dir.nodeid, v[n].name.value);
      WalkDown(v, c, root, start, k - 1, tail);
    }
  }

  /** The path of a node, read back from the root, leads to that node. */
  lemma PathLeadsHome(v: View, c: Chains, root: Node, start: Node)
    requires Inv(v, c, root, null) && start in v && start in c && |c[start]| > 0 && c[start] == Below(c, start) + [root]
    ensures Walk(v, root, Components(TextFrom(v, c, start, None))) == start
  {
    var k := |c[start]| - 1;
    WalkDown(v, c, root, start, k, "");
    var text := PathText(v, Below(c, start), "");
    assert Components(Shown(text)) == Components(text);
  }

  /** The path of a name in a directory leads to what lookup_node finds under that name. */
  lemma PathLeadsToEntry(v: View, c: Chains, root: Node, start: Node, name: string)
    requires Inv(v, c, root, null) && start in v && start in c && |c[start]| > 0 && c[start] == Below(c, start) + [root]
    requires GoodName(name)
    ensures Walk(v, root, Components(TextFrom(v, c, start, Some(name)))) == Lookup(v, start.nodeid, name)
  {
    var k := |c[start]| - 1;
    WalkDown(v, c, root, start, k, ['/'] + name);
    FirstComponent(name, "");
    assert ['/'] + name + "" == ['/'] + name;
    assert Components(['/'] + name) == [name];
    var n := Lookup(v, start.nodeid, name);
    assert Walk(v, start, [name]) == if n == null then null else Walk(v, n, []);
  }
}
