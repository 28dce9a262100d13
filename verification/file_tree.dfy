/** The iterator over the files of an archive, a forest with parent pointers (xar/filetree.c:801-879). */
module FileTree {
  import opened Wrappers

  class XarFile {
    const name: string
    var parent: XarFile?
    var children: XarFile?
    var next: XarFile?

    constructor (name: string)
      ensures this.name == name && parent == null && children == null && next == null
    {
      this.name := name;
      parent, children, next := null, null, null;
    }
  }

  datatype Tree = Tree(file: XarFile, children: seq<Tree>)

  /** A file, and the path of its directory as the iterator has it. */
  datatype Visit = Visit(file: XarFile, path: Option<string>)

  /** A name or a path has no empty component. */
  predicate Plain(s: string) {
    s != "" && s[0] != '/' && s[|s| - 1] != '/' && forall i :: 0 <= i < |s| - 1 ==> s[i] != '/' || s[i + 1] != '/'
  }

  predicate PlainPath(path: Option<string>) {
    path == None || Plain(path.value)
  }

  function Join(path: Option<string>, name: string): string {
    if path == None then name else path.value + "/" + name
  }

  lemma JoinIsPlain(path: Option<string>, name: string)
    requires PlainPath(path) && Plain(name)
    ensures Plain(Join(path, name))
  {
    if path != None {
      var p, s := path.value, Join(path, name);
      forall i | 0 <= i < |s| - 1 ensures s[i] != '/' || s[i + 1] != '/' {
        assert s[i] == if i < |p| then p[i] else if i == |p| then '/' else name[i - |p| - 1];
        assert s[i + 1] == if i + 1 < |p| then p[i + 1] else if i + 1 == |p| then '/' else name[i - |p|];
      }
    }
  }

  /** All files of a forest, each before those in it; path is that of the directory the forest is in. */
  function Preorder(forest: seq<Tree>, path: Option<string>): seq<Visit> {
    if forest == [] then []
    else
      var t := forest[0];
      [Visit(t.file, path)] + Preorder(t.children, Some(Join(path, t.file.name))) + Preorder(forest[1..], path)
  }

  function HeadFile(forest: seq<Tree>): XarFile? {
    if forest == [] then null else forest[0].file
  }

  // ----- ascending by dirname

  function LastSlash(s: string): (k: nat)
    requires '/' in s
    ensures k < |s| && s[k] == '/' && '/' !in s[k + 1..]
  {
    if s[|s| - 1] == '/' then |s| - 1 else LastSlash(s[..|s| - 1])
  }

  /** dirname(3), for plain paths. */
  function Dirname(s: string): string
    requires '/' in s
  {
    s[..LastSlash(s)]
  }

  /** What xar_file_next makes of the path when it goes up. */
  function Ascend(path: Option<string>): Option<string> {
    if path == None || '/' !in path.value then None else Some(Dirname(path.value))
  }

  lemma {:induction false} LastSlashAt(s: string, k: nat)
    requires k < |s| && s[k] == '/' && '/' !in s[k + 1..]
    ensures '/' in s && LastSlash(s) == k
  {}

  function Slashes(s: string): nat {
    multiset(s)['/']
  }

  /** How often xar_file_next can go up from a path. */
  function Depth(path: Option<string>): nat {
    if path == None then 0 else Slashes(path.value) + 1
  }

  lemma DepthOfJoin(path: Option<string>, name: string)
    ensures Depth(Some(Join(path, name))) == Depth(path) + 1 + Slashes(name)
  {}

  lemma DepthAbove(path: Option<string>)
    requires path != None
    ensures Depth(Ascend(path)) == Depth(path) - 1
  {
    var s := path.value;
    if '/' in s {
      var k := LastSlash(s);
      assert s == s[..k] + ['/'] + s[k + 1..];
    }
  }

  lemma AscendIsPlain(path: Option<string>)
    requires PlainPath(path)
    ensures PlainPath(Ascend(path))
  {
    if path != None && '/' in path.value {
      var k := LastSlash(path.value);
      assert k > 0 && path.value[k - 1] != '/';
    }
  }

  /** Going up undoes going down if and only if the directory's name has no slash. */
  lemma PathAbove(path: Option<string>, name: string)
    ensures Ascend(Some(Join(path, name))) == path <==> '/' !in name
  {
    DepthOfJoin(path, name);
    DepthAbove(Some(Join(path, name)));
    if '/' !in name && path != None {
      var s, p := Join(path, name), path.value;
      assert s[|p|] == '/' && s[|p| + 1..] == name && s[..|p|] == p;
      LastSlashAt(s, |p|);
    }
  }

  // ----- what is visited

  /** The files that are visited, with their paths, and the path that the iterator has afterwards. */
  datatype Trail = Trail(visits: seq<Visit>, after: Option<string>)

  /** What a walk of a forest visits that begins with the given path. */
  function Walked(forest: seq<Tree>, path: Option<string>): Trail {
    if forest == [] then Trail([], path)
    else
      var inside := Inside(forest[0], path);
      var behind := Walked(forest[1..], inside.after);
      Trail([Visit(forest[0].file, path)] + inside.visits + behind.visits, behind.after)
  }

  /** And what it visits in a directory: the path grows by the name on the way in, and shrinks by one slash on the
      way out. */
  function Inside(t: Tree, path: Option<string>): Trail {
    if t.children == [] then Trail([], path)
    else
      var inner := Walked(t.children, Some(Join(path, t.file.name)));
      Trail(inner.visits, Ascend(inner.after))
  }

  /** How many slashes there are in the names of directories. */
  function Extra(forest: seq<Tree>): nat {
    if forest == [] then 0 else ExtraIn(forest[0]) + Extra(forest[1..])
  }

  function ExtraIn(t: Tree): nat {
    if t.children == [] then 0 else Slashes(t.file.name) + Extra(t.children)
  }

  /** No file comes behind a directory with a slash in its name, or with such a directory below it. */
  predicate Orderly(forest: seq<Tree>) {
    forest == [] ||
    (Orderly(forest[0].children) && (forest[1..] == [] || (ExtraIn(forest[0]) == 0 && Orderly(forest[1..]))))
  }

  /** Every slash in the name of a directory is one that is not taken off again. */
  lemma {:induction false} DepthAfter(forest: seq<Tree>, path: Option<string>)
    ensures Depth(Walked(forest, path).after) == Depth(path) + Extra(forest)
    decreases forest, 1
  {
    if forest != [] {
      DepthInside(forest[0], path);
      DepthAfter(forest[1..], Inside(forest[0], path).after);
    }
  }

  lemma {:induction false} DepthInside(t: Tree, path: Option<string>)
    ensures Depth(Inside(t, path).after) == Depth(path) + ExtraIn(t)
    decreases t, 0
  {
    if t.children != [] {
      var down := Some(Join(path, t.file.name));
      DepthOfJoin(path, t.file.name);
      DepthAfter(t.children, down);
      DepthAbove(Walked(t.children, down).after);
    }
  }

  /** A walk ends with the path that it began with if and only if no directory has a slash in its name. */
  lemma PathIsRestored(forest: seq<Tree>, path: Option<string>)
    ensures Walked(forest, path).after == path <==> Extra(forest) == 0
  {
    DepthAfter(forest, path);
    if Extra(forest) == 0 { CleanIsRight(forest, path); }
  }

  lemma {:induction false} CleanIsRight(forest: seq<Tree>, path: Option<string>)
    requires Extra(forest) == 0
    ensures Walked(forest, path) == Trail(Preorder(forest, path), path)
    decreases forest, 1
  {
    if forest != [] {
      CleanInside(forest[0], path);
      CleanIsRight(forest[1..], path);
    }
  }

  lemma {:induction false} CleanInside(t: Tree, path: Option<string>)
    requires ExtraIn(t) == 0
    ensures Inside(t, path) == Trail(Preorder(t.children, Some(Join(path, t.file.name))), path)
    decreases t, 0
  {
    if t.children != [] {
      CleanIsRight(t.children, Some(Join(path, t.file.name)));
      PathAbove(path, t.file.name);
    }
  }

  /** The walk visits each file with the path of its directory if and only if nothing comes behind a directory with a
      slash in its name. */
  lemma {:induction false} WalkIsPreorder(forest: seq<Tree>, path: Option<string>)
    ensures Walked(forest, path).visits == Preorder(forest, path) <==> Orderly(forest)
    decreases forest
  {
    if forest != [] {
      var t, rest, down := forest[0], forest[1..], Some(Join(path, forest[0].file.name));
      var inside, inner := Inside(t, path), Preorder(t.children, down);
      WalkIsPreorder(t.children, down);
      SameVisits(t.children, down);
      WalkedFiles(t.children, down);
      assert inside.visits == Walked(t.children, down).visits;
      SameParts(Visit(t.file, path), inside.visits, Walked(rest, inside.after).visits, inner, Preorder(rest, path));
      DepthInside(t, path);
      if rest != [] {
        if ExtraIn(t) == 0 {
          CleanInside(t, path);
          WalkIsPreorder(rest, path);
        } else {
          assert Walked(rest, inside.after).visits[0].path == inside.after != Preorder(rest, path)[0].path;
        }
      }
    }
  }

  lemma SameParts(v: Visit, a: seq<Visit>, b: seq<Visit>, a': seq<Visit>, b': seq<Visit>)
    requires |a| == |a'|
    ensures [v] + a + b == [v] + a' + b' <==> a == a' && b == b'
  {
    if [v] + a + b == [v] + a' + b' {
      assert a == ([v] + a + b)[1..|a| + 1] == a';
      assert b == ([v] + a + b)[|a| + 1..] == b';
    }
  }

  /** A walk that goes wrong: z, which is at the top, is reported in a. */
  lemma SlashMisleads(x: XarFile, y: XarFile, z: XarFile)
    requires x.name == "a/b"
    ensures var forest := [Tree(x, [Tree(y, [])]), Tree(z, [])];
            && Walked(forest, None).visits == [Visit(x, None), Visit(y, Some("a/b")), Visit(z, Some("a"))]
            && Preorder(forest, None) == [Visit(x, None), Visit(y, Some("a/b")), Visit(z, None)]
  {
    var forest := [Tree(x, [Tree(y, [])]), Tree(z, [])];
    LastSlashAt("a/b", 1);
    assert "a/b"[..1] == "a";
    assert forest[1..] == [Tree(z, [])] && forest[1..][1..] == [];
    var inner := [Tree(y, [])];
    assert inner[1..] == [] && Walked(inner, Some("a/b")) == Trail([Visit(y, Some("a/b"))], Some("a/b"));
    assert Inside(forest[0], None) == Trail([Visit(y, Some("a/b"))], Some("a"));
    assert Walked(forest[1..], Some("a")) == Trail([Visit(z, Some("a"))], Some("a"));
    assert Preorder(inner, Some("a/b")) == [Visit(y, Some("a/b"))];
    assert Preorder(forest[1..], None) == [Visit(z, None)];
  }

  // ----- the iterator

  /** The pointers of the files are as the forest says. */
  ghost predicate Linked(forest: seq<Tree>, parent: XarFile?, files: set<XarFile>)
    reads files`parent, files`children, files`next
  {
    forest == [] || (TreeLinked(forest[0], HeadFile(forest[1..]), parent, files) && Linked(forest[1..], parent, files))
  }

  ghost predicate TreeLinked(t: Tree, next: XarFile?, parent: XarFile?, files: set<XarFile>)
    reads files`parent, files`children, files`next
  {
    && t.file in files && (t.children != [] ==> Plain(t.file.name))
    && t.file.parent == parent && t.file.next == next
    && t.file.children == HeadFile(t.children)
    && Linked(t.children, t.file, files)
  }

  /** A place in the forest: a tree, those behind it, and the place of the directory they are in. */
  datatype Place = Place(here: Tree, rest: seq<Tree>, up: Option<Place>)

  function ParentOf(p: Place): XarFile? {
    if p.up == None then null else p.up.value.here.file
  }

  function Level(p: Place): nat
    decreases p
  {
    if p.up == None then 0 else Level(p.up.value) + 1
  }

  ghost predicate PlaceOk(p: Place, files: set<XarFile>)
    reads files`parent, files`children, files`next
    decreases p
  {
    && TreeLinked(p.here, HeadFile(p.rest), ParentOf(p), files) && Linked(p.rest, ParentOf(p), files)
    && (p.up != None ==> PlaceOk(p.up.value, files))
  }

  /** What is still to come at a place: what is in it, unless that is done, what is behind it, and so on above. */
  function Remaining(p: Place, inside: bool, path: Option<string>): Trail
    decreases p
  {
    var a := if inside then Inside(p.here, path) else Trail([], path);
    var b := Walked(p.rest, a.after);
    if p.up == None then Trail(a.visits + b.visits, b.after)
    else
      var c := Remaining(p.up.value, false, Ascend(b.after));
      Trail(a.visits + b.visits + c.visits, c.after)
  }

  function Before(v: Visit, t: Trail): Trail {
    Trail([v] + t.visits, t.after)
  }

  function FirstIn(p: Place): Place
    requires p.here.children != []
  {
    Place(p.here.children[0], p.here.children[1..], Some(p))
  }

  function Beside(p: Place): Place
    requires p.rest != []
  {
    Place(p.rest[0], p.rest[1..], p.up)
  }

  lemma Down(p: Place, files: set<XarFile>)
    requires PlaceOk(p, files)
    ensures p.here.file in files && p.here.file.children == HeadFile(p.here.children)
    ensures p.here.children != [] ==> PlaceOk(FirstIn(p), files) && Plain(p.here.file.name)
  {
    var cs := p.here.children;
    assert Linked(cs, p.here.file, files);
    if cs != [] {
      assert TreeLinked(cs[0], HeadFile(cs[1..]), p.here.file, files) && Linked(cs[1..], p.here.file, files);
    }
  }

  /** What is to come, when the first child is visited. */
  lemma DownRemaining(p: Place, path: Option<string>)
    ensures if p.here.children == [] then Remaining(p, true, path) == Remaining(p, false, path)
            else var down := Some(Join(path, p.here.file.name));
                 Remaining(p, true, path) ==
                     Before(Visit(FirstIn(p).here.file, down), Remaining(FirstIn(p), true, down))
  {
    if p.here.children != [] {
      var down := Some(Join(path, p.here.file.name));
      var first := Inside(p.here.children[0], down);
      var others := Walked(p.here.children[1..], first.after);
      var behind := Walked(p.rest, Ascend(others.after));
      assert Inside(p.here, path) ==
          Trail([Visit(p.here.children[0].file, down)] + first.visits + others.visits, Ascend(others.after));
      Regroup(Visit(p.here.children[0].file, down), first.visits, others.visits, behind.visits,
              if p.up == None then [] else Remaining(p.up.value, false, Ascend(behind.after)).visits);
      RemainingBehind(p, Ascend(others.after));
    }
  }

  lemma RemainingBehind(p: Place, path: Option<string>)
    ensures var b := Walked(p.rest, path);
            Remaining(p, false, path) ==
            if p.up == None then b
            else var c := Remaining(p.up.value, false, Ascend(b.after)); Trail([] + b.visits + c.visits, c.after)
  {}

  lemma Regroup(v: Visit, a: seq<Visit>, b: seq<Visit>, c: seq<Visit>, d: seq<Visit>)
    ensures ([v] + a + b) + c + d == [v] + (a + b + ([] + c + d))
    ensures ([v] + a + b) + c == [v] + (a + b + ([] + c))
  {}

  /** What is to come, when the next file is visited. */
  lemma Along(p: Place, path: Option<string>)
    requires p.rest != []
    ensures Remaining(p, false, path) == Before(Visit(Beside(p).here.file, path), Remaining(Beside(p), true, path))
  {
    var first := Inside(p.rest[0], path);
    var others := Walked(p.rest[1..], first.after);
    RegroupAlong(Visit(p.rest[0].file, path), first.visits, others.visits,
                 if p.up == None then [] else Remaining(p.up.value, false, Ascend(others.after)).visits);
  }

  lemma RegroupAlong(v: Visit, a: seq<Visit>, b: seq<Visit>, d: seq<Visit>)
    ensures [] + ([v] + a + b) + d == [v] + (a + b + d)
    ensures [] + ([v] + a + b) == [v] + (a + b)
  {}

  /** Going up, by dirname, changes nothing about what is to come. */
  lemma Up(p: Place, path: Option<string>)
    requires p.rest == []
    ensures Remaining(p, false, path) ==
            if p.up == None then Trail([], path) else Remaining(p.up.value, false, Ascend(path))
  {}

  class Iter {
    var iter: XarFile?
    var path: Option<string>
    var nochild: bool
    ghost var files: set<XarFile>
    ghost var place: Place

    /** The iterator is on a file, and has a path that is long enough to go up to the top. */
    ghost predicate On()
      reads `iter, `path, `files, `place, files`parent, files`children, files`next
    {
      && PlaceOk(place, files) && iter == place.here.file
      && PlainPath(path) && Depth(path) >= Level(place)
    }

    lemma OnFile()
      requires On()
      ensures iter != null && iter == place.here.file
      ensures iter.children == HeadFile(place.here.children) && iter.next == HeadFile(place.rest) &&
              iter.parent == ParentOf(place)
    {}

    method StepIn()
      requires On() && iter != null && iter.children != null && place.here.children != []
      modifies `path, `iter, `place
      ensures On() && place == FirstIn(old(place)) && iter == place.here.file
      ensures path == Some(Join(old(path), old(iter).name))
    {
      Down(place, files);
      hide PlaceOk, Plain, Depth;
      JoinIsPlain(path, iter.name);
      DepthOfJoin(path, iter.name);
      path := Some(Join(path, iter.name));
      iter := iter.children;
      place := FirstIn(place);
    }

    method StepOver()
      requires On() && iter != null && iter.next != null && place.rest != []
      modifies `iter, `place
      ensures On() && place == Beside(old(place)) && iter == place.here.file
    {
      iter := iter.next;
      place := Beside(place);
    }

    method StepUp()
      requires On() && iter != null && iter.parent != null && place.rest == [] && place.up != None
      modifies `path, `iter, `place
      ensures On() && place == old(place).up.value && path == Ascend(old(path))
    {
      AscendIsPlain(path);
      assert path != None;
      DepthAbove(path);
      hide Plain, Depth;
      if '/' in path.value {
        path := Some(Dirname(path.value));
      } else {
        path := None;
      }
      iter := iter.parent;
      place := place.up.value;
    }

    constructor (ghost somewhere: Place)
      ensures iter == null && path == None && !nochild
    {
      iter, path, nochild := null, None, false;
      files, place := {}, somewhere;
    }

    /** xar_file_first. It leaves the path as it is. */
    method First(first: XarFile?, ghost forest: seq<Tree>, ghost all: set<XarFile>) returns (f: XarFile?)
      requires Linked(forest, null, all) && first == HeadFile(forest) && PlainPath(path) && !nochild
      modifies this
      ensures f == first && !nochild && path == old(path)
      ensures if f == null then forest == []
              else On() && Walked(forest, old(path)) == Before(Visit(f, path), Remaining(place, true, path))
    {
      iter := first;
      files := all;
      if forest != [] {
        place := Place(forest[0], forest[1..], None);
      }
      return iter;
    }

    /** xar_file_next. */
    method Next() returns (f: XarFile?)
      requires On()
      modifies this
      ensures On() && files == old(files) && !nochild
      ensures var left := old(Remaining(place, !nochild, path));
              if f == null then left == Trail([], path)
              else f == iter && left == Before(Visit(f, path), Remaining(place, true, path))
      decreases place
    {
      hide Remaining, PlaceOk, On, Walked, Inside, Ascend;
      OnFile();
      DownRemaining(place, path);
      if place.rest != [] { Along(place, path); } else { Up(place, path); }
      if !nochild && iter.children != null {
        StepIn();
        return iter;
      }
      nochild := false;
      if iter.next != null {
        StepOver();
        return iter;
      }
      if iter.parent != null {
        StepUp();
        nochild := true;
        f := Next();
        return f;
      }
      return null;
    }

    /** Wherever a walk is broken off, the iterator may be used for another one. */
    lemma Reusable()
      requires On()
      ensures PlainPath(path)
    {}
  }

  /** A walk with an iterator that may have been used. */
  method WalkWith(i: Iter, first: XarFile?, ghost forest: seq<Tree>, ghost all: set<XarFile>)
    returns (visits: seq<Visit>)
    requires Linked(forest, null, all) && first == HeadFile(forest) && PlainPath(i.path) && !i.nochild
    modifies i
    ensures Trail(visits, i.path) == Walked(forest, old(i.path)) && !i.nochild
  {
    hide Remaining, PlaceOk, Linked, Plain, Inside;
    var f := i.First(first, forest, all);
    visits := [];
    ghost var left := Walked(forest, old(i.path));
    hide Walked;
    while f != null
      invariant !i.nochild
      invariant if f == null then left == Trail([], i.path)
                else i.On() && left == Before(Visit(f, i.path), Remaining(i.place, true, i.path))
      invariant Trail(visits + left.visits, left.after) == Walked(forest, old(i.path))
      decreases |left.visits|
    {
      visits := visits + [Visit(f, i.path)];
      left := left.(visits := left.visits[1..]);
      f := i.Next();
    }
  }

  /** The walk that callers make, with a fresh iterator. */
  method Walk(first: XarFile?, ghost forest: seq<Tree>, ghost all: set<XarFile>, ghost somewhere: Place)
    returns (visits: seq<Visit>)
    requires Linked(forest, null, all) && first == HeadFile(forest)
    ensures visits == Walked(forest, None).visits
    ensures Orderly(forest) ==> visits == Preorder(forest, None)
  {
    var i := new Iter(somewhere);
    visits := WalkWith(i, first, forest, all);
    WalkIsPreorder(forest, None);
  }

  // ----- an iterator with an old path

  /** Behind base. */
  function Under(base: Option<string>, path: Option<string>): Option<string> {
    if base == None then path else if path == None then base else Some(base.value + "/" + path.value)
  }

  lemma JoinUnder(base: Option<string>, path: Option<string>, name: string)
    ensures Some(Join(Under(base, path), name)) == Under(base, Some(Join(path, name)))
  {
    if base != None {
      assert path != None ==>
          base.value + "/" + path.value + "/" + name == base.value + "/" + (path.value + "/" + name);
    }
  }

  lemma AscendUnder(base: Option<string>, path: Option<string>)
    requires path != None
    ensures Ascend(Under(base, path)) == Under(base, Ascend(path))
  {
    if base != None {
      var b, p := base.value, path.value;
      var s := b + "/" + p;
      var k := if '/' in p then |b| + 1 + LastSlash(p) else |b|;
      assert s[k + 1..] == if '/' in p then p[LastSlash(p) + 1..] else p;
      LastSlashAt(s, k);
      assert s[..k] == if '/' in p then b + "/" + p[..LastSlash(p)] else b;
    }
  }

  function VisitsUnder(base: Option<string>, visits: seq<Visit>): (r: seq<Visit>)
    ensures |r| == |visits|
  {
    if visits == [] then [] else [Visit(visits[0].file, Under(base, visits[0].path))] + VisitsUnder(base, visits[1..])
  }

  lemma {:induction false} UnderJoins(base: Option<string>, a: seq<Visit>, b: seq<Visit>)
    ensures VisitsUnder(base, a + b) == VisitsUnder(base, a) + VisitsUnder(base, b)
    decreases |a|
  {
    if a == [] {
      assert a + b == b;
    } else {
      assert (a + b)[0] == a[0] && (a + b)[1..] == a[1..] + b;
      UnderJoins(base, a[1..], b);
    }
  }

  /** The same files in the same order, with every path behind the old one. */
  lemma {:induction false} WalkedUnder(forest: seq<Tree>, base: Option<string>, path: Option<string>)
    ensures var w := Walked(forest, path);
            Walked(forest, Under(base, path)) == Trail(VisitsUnder(base, w.visits), Under(base, w.after))
    decreases forest, 1
  {
    if forest != [] {
      var inside := Inside(forest[0], path);
      var behind := Walked(forest[1..], inside.after);
      InsideUnder(forest[0], base, path);
      WalkedUnder(forest[1..], base, inside.after);
      UnderJoins(base, [Visit(forest[0].file, path)] + inside.visits, behind.visits);
      UnderJoins(base, [Visit(forest[0].file, path)], inside.visits);
    }
  }

  lemma {:induction false} InsideUnder(t: Tree, base: Option<string>, path: Option<string>)
    ensures var w := Inside(t, path);
            Inside(t, Under(base, path)) == Trail(VisitsUnder(base, w.visits), Under(base, w.after))
    decreases t, 0
  {
    if t.children != [] {
      var down := Some(Join(path, t.file.name));
      JoinUnder(base, path, t.file.name);
      WalkedUnder(t.children, base, down);
      DepthAfter(t.children, down);
      AscendUnder(base, Walked(t.children, down).after);
    }
  }

  /** A walk visits the files as a fresh one does just when the iterator had no path, or there is no file. */
  lemma OldPathMatters(forest: seq<Tree>, path: Option<string>)
    ensures Walked(forest, path).visits == Walked(forest, None).visits <==> forest == [] || path == None
  {
    if forest != [] {
      assert Walked(forest, path).visits[0].path == path && Walked(forest, None).visits[0].path == None;
    }
  }

  // ----- every file once

  function Subtrees(forest: seq<Tree>): seq<Tree> {
    if forest == [] then [] else [forest[0]] + Subtrees(forest[0].children) + Subtrees(forest[1..])
  }

  lemma {:induction false} SameVisits(forest: seq<Tree>, path: Option<string>)
    ensures |Preorder(forest, path)| == |Subtrees(forest)|
    ensures forall k :: 0 <= k < |Subtrees(forest)| ==> Preorder(forest, path)[k].file == Subtrees(forest)[k].file
  {
    if forest != [] {
      SameVisits(forest[0].children, Some(Join(path, forest[0].file.name)));
      SameVisits(forest[1..], path);
    }
  }

  function Size(t: Tree): nat {
    1 + Sizes(t.children)
  }

  function Sizes(forest: seq<Tree>): nat {
    if forest == [] then 0 else Size(forest[0]) + Sizes(forest[1..])
  }

  /** A subtree: its pointers are right, it is no larger, and its parent is the forest's or comes before it. */
  lemma {:induction false} Member(forest: seq<Tree>, parent: XarFile?, files: set<XarFile>, k: nat)
    requires Linked(forest, parent, files) && k < |Subtrees(forest)|
    ensures var t := Subtrees(forest)[k];
            && TreeLinked(t, t.file.next, t.file.parent, files) && Size(t) <= Sizes(forest)
            && ((t in forest && t.file.parent == parent) ||
                exists j :: 0 <= j < k && Subtrees(forest)[j].file == t.file.parent)
  {
    var t, inner, rest := Subtrees(forest)[k], Subtrees(forest[0].children), Subtrees(forest[1..]);
    assert TreeLinked(forest[0], HeadFile(forest[1..]), parent, files) && Linked(forest[1..], parent, files);
    if 0 < k <= |inner| {
      Member(forest[0].children, forest[0].file, files, k - 1);
      assert Subtrees(forest)[0].file == forest[0].file;
      if j :| 0 <= j < k - 1 && inner[j].file == t.file.parent {
        assert Subtrees(forest)[j + 1] == inner[j];
      }
    } else if k > |inner| {
      Member(forest[1..], parent, files, k - 1 - |inner|);
      if j :| 0 <= j < k - 1 - |inner| && rest[j].file == t.file.parent {
        assert Subtrees(forest)[j + 1 + |inner|] == rest[j];
      }
    }
  }

  /** The pointers say all: lists with the same first file are the same. */
  lemma {:induction false} SameForest(f: seq<Tree>, p: XarFile?, g: seq<Tree>, q: XarFile?, files: set<XarFile>)
    requires Linked(f, p, files) && Linked(g, q, files) && HeadFile(f) == HeadFile(g)
    ensures f == g
    decreases f
  {
    if f != [] {
      assert TreeLinked(f[0], HeadFile(f[1..]), p, files) && TreeLinked(g[0], HeadFile(g[1..]), q, files);
      SameForest(f[0].children, f[0].file, g[0].children, g[0].file, files);
      SameForest(f[1..], p, g[1..], q, files);
      assert f == [f[0]] + f[1..] && g == [g[0]] + g[1..];
    }
  }

  lemma SameTree(t: Tree, u: Tree, files: set<XarFile>)
    requires TreeLinked(t, t.file.next, t.file.parent, files) && TreeLinked(u, u.file.next, u.file.parent, files) &&
             t.file == u.file
    ensures t == u
  {
    SameForest(t.children, t.file, u.children, u.file, files);
  }

  ghost predicate Has(forest: seq<Tree>, f: XarFile?) {
    exists k :: 0 <= k < |Subtrees(forest)| && Subtrees(forest)[k].file == f
  }

  lemma {:induction false} LinkedSuffix(forest: seq<Tree>, parent: XarFile?, files: set<XarFile>, i: nat)
    requires Linked(forest, parent, files) && i <= |forest|
    ensures Linked(forest[i..], parent, files)
  {
    if i > 0 {
      LinkedSuffix(forest[1..], parent, files, i - 1);
      assert forest[1..][i - 1..] == forest[i..];
    }
  }

  /** No file is below itself. */
  lemma NotInside(t: Tree, files: set<XarFile>)
    requires TreeLinked(t, t.file.next, t.file.parent, files)
    ensures !Has(t.children, t.file)
  {
    forall k | 0 <= k < |Subtrees(t.children)| ensures Subtrees(t.children)[k].file != t.file {
      Member(t.children, t.file, files, k);
      if Subtrees(t.children)[k].file == t.file { SameTree(t, Subtrees(t.children)[k], files); }
    }
  }

  /** The first file of a list is not further back in it, nor below there. */
  lemma NotBehind(forest: seq<Tree>, parent: XarFile?, files: set<XarFile>)
    requires Linked(forest, parent, files) && forest != [] && !Has(forest[1..], parent)
    ensures !Has(forest[1..], forest[0].file)
  {
    var t, rest := forest[0], forest[1..];
    assert TreeLinked(t, HeadFile(rest), parent, files) && Linked(rest, parent, files);
    forall k | 0 <= k < |Subtrees(rest)| ensures Subtrees(rest)[k].file != t.file {
      Member(rest, parent, files, k);
      var u := Subtrees(rest)[k];
      if u.file == t.file && u in rest {
        var i :| 0 <= i < |rest| && rest[i] == u;
        LinkedSuffix(rest, parent, files, i);
        SameForest(forest, parent, rest[i..], parent, files);
      }
    }
  }

  /** No file below the first of a list is further back in the list, or below there. */
  lemma {:induction false} NotBelowBoth(forest: seq<Tree>, parent: XarFile?, files: set<XarFile>, a: nat)
    requires Linked(forest, parent, files) && forest != [] && !Has(forest, parent) && !Has(forest[1..], forest[0].file)
    requires a < |Subtrees(forest[0].children)|
    ensures !Has(forest[1..], Subtrees(forest[0].children)[a].file)
    decreases a
  {
    var t, inner, rest := forest[0], Subtrees(forest[0].children), Subtrees(forest[1..]);
    assert TreeLinked(t, HeadFile(forest[1..]), parent, files) && Linked(forest[1..], parent, files);
    Member(t.children, t.file, files, a);
    forall j | 0 <= j < a ensures !Has(forest[1..], inner[j].file) { NotBelowBoth(forest, parent, files, j); }
    forall b | 0 <= b < |rest| ensures rest[b].file != inner[a].file {
      Member(forest[1..], parent, files, b);
      assert Subtrees(forest)[0].file != parent && forall j :: 0 <= j < |inner| ==> Subtrees(forest)[j + 1] == inner[j];
    }
  }

  /** In a forest no file is twice. */
  lemma {:induction false} EachOnce(forest: seq<Tree>, parent: XarFile?, files: set<XarFile>)
    requires Linked(forest, parent, files) && !Has(forest, parent)
    ensures forall i, j :: 0 <= i < j < |Subtrees(forest)| ==> Subtrees(forest)[i].file != Subtrees(forest)[j].file
  {
    if forest != [] {
      var t, inner, rest := forest[0], Subtrees(forest[0].children), Subtrees(forest[1..]);
      var all := Subtrees(forest);
      assert TreeLinked(t, HeadFile(forest[1..]), parent, files) && Linked(forest[1..], parent, files);
      forall k | 0 <= k < |rest| ensures rest[k].file != parent { assert all[k + 1 + |inner|] == rest[k]; }
      NotInside(t, files);
      NotBehind(forest, parent, files);
      EachOnce(t.children, t.file, files);
      EachOnce(forest[1..], parent, files);
      forall a | 0 <= a < |inner| ensures !Has(forest[1..], inner[a].file) { NotBelowBoth(forest, parent, files, a); }
      forall i, j | 0 <= i < j < |all| ensures all[i].file != all[j].file {
        assert all[i] == if i == 0 then t else if i <= |inner| then inner[i - 1] else rest[i - 1 - |inner|];
        assert all[j] == if j <= |inner| then inner[j - 1] else rest[j - 1 - |inner|];
      }
    }
  }

  lemma {:induction false} WalkedFiles(forest: seq<Tree>, path: Option<string>)
    ensures |Walked(forest, path).visits| == |Subtrees(forest)|
    ensures forall k :: 0 <= k < |Subtrees(forest)| ==> Walked(forest, path).visits[k].file == Subtrees(forest)[k].file
    decreases forest
  {
    if forest != [] {
      WalkedFiles(forest[0].children, Some(Join(path, forest[0].file.name)));
      WalkedFiles(forest[1..], Inside(forest[0], path).after);
    }
  }

  /** The walk comes by no file twice, whatever path it begins with. */
  lemma VisitsEachOnce(forest: seq<Tree>, files: set<XarFile>, path: Option<string>, i: nat, j: nat)
    requires Linked(forest, null, files) && i < j < |Walked(forest, path).visits|
    ensures Walked(forest, path).visits[i].file != Walked(forest, path).visits[j].file
  {
    WalkedFiles(forest, path);
    EachOnce(forest, null, files);
  }
}
