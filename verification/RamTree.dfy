/** RamCachedDB (sources/services/storage/ramcacheddb.go): a tree of nodes with parent links, changed in place.
    Every method is proved against the map of paths of DotPaths. */
module RamTrees {
  import opened DotPaths
  import opened DumpTexts

  class RamNode {
    var immediateName: string
    var parent: RamNode?
    var childs: map<string, RamNode>
    var value: string

    constructor (immediateName: string, parent: RamNode?)
      ensures Now() == Fields(immediateName, parent, map[], "")
    {
      this.immediateName := immediateName;
      this.parent := parent;
      childs := map[];
      value := "";
    }

    ghost function Now(): Fields
      reads this
    {
      Fields(immediateName, parent, childs, value)
    }
  }

  /** The fields of a node at one moment. */
  datatype Fields = Fields(name: string, parent: RamNode?, childs: map<string, RamNode>, value: string)

  /** Where the node objects are, and what they hold. */
  type Places = map<Path, RamNode>
  type Snapshot = map<Path, Fields>

  ghost function Snap(at: Places): Snapshot
    reads at.Values
  {
    map p | p in at :: at[p].Now()
  }

  /** The child table of the node at `p` leads to the nodes one segment further, and to nothing else. */
  ghost predicate ChildsOk(at: Places, s: Snapshot, p: Path) {
    && p in at && p in s
    && forall k :: k in s[p].childs ==> p + [k] in at && s[p].childs[k] == at[p + [k]]
  }

  /** The parent link and the name of the node at `p` agree with the parent's child table. */
  ghost predicate ParentOk(at: Places, s: Snapshot, p: Path) {
    && p in at && p in s
    && if p == [] then s[p].parent == null
       else
         && Parent(p) in at && Parent(p) in s && s[p].parent == at[Parent(p)] && s[p].name == Last(p)
         && Last(p) in s[Parent(p)].childs && s[Parent(p)].childs[Last(p)] == at[p]
  }

  ghost predicate TreeOk(at: Places, s: Snapshot) {
    && [] in at && s.Keys == at.Keys
    && (forall p {:trigger ChildsOk(at, s, p)} :: p in at ==> ChildsOk(at, s, p))
    && (forall p {:trigger ParentOk(at, s, p)} :: p in at ==> ParentOk(at, s, p))
    && (forall p, q :: p in at && q in at && at[p] == at[q] ==> p == q)
  }

  ghost function ViewOf(s: Snapshot): View {
    map p | p in s :: s[p].value
  }

  lemma ViewClosed(at: Places, s: Snapshot)
    requires TreeOk(at, s)
    ensures Closed(ViewOf(s))
  {
    forall p | p in s && p != [] ensures Parent(p) in s { assert ParentOk(at, s, p); }
  }

  /** A child table has an entry exactly where the tree has a node. */
  lemma ChildHere(at: Places, s: Snapshot, p: Path, k: string)
    requires TreeOk(at, s) && p in at
    ensures k in s[p].childs <==> p + [k] in at
    ensures k in s[p].childs ==> s[p].childs[k] == at[p + [k]]
  {
    assert ChildsOk(at, s, p);
    if p + [k] in at {
      assert ParentOk(at, s, p + [k]) && Parent(p + [k]) == p && Last(p + [k]) == k;
    }
  }

  ghost function Grown(at: Places, s: Snapshot, p: Path, k: string, child: RamNode): Snapshot
    requires p in at && p in s
  {
    s[p := s[p].(childs := s[p].childs[k := child])][p + [k] := Fields(k, at[p], map[], "")]
  }

  lemma GrownChilds(at: Places, s: Snapshot, p: Path, k: string, child: RamNode, r: Path)
    requires p in at && p in s && p + [k] !in at && ChildsOk(at, s, r)
    ensures ChildsOk(at[p + [k] := child], Grown(at, s, p, k, child), r)
  {
  }

  lemma GrownParent(at: Places, s: Snapshot, p: Path, k: string, child: RamNode, r: Path)
    requires p in at && p in s && p + [k] !in at && k !in s[p].childs && ParentOk(at, s, r)
    ensures ParentOk(at[p + [k] := child], Grown(at, s, p, k, child), r)
  {
  }

  lemma GrownHere(at: Places, s: Snapshot, p: Path, k: string, child: RamNode)
    requires p in at && p in s && s.Keys == at.Keys && p + [k] !in at
    ensures var q, at', s' := p + [k], at[p + [k] := child], Grown(at, s, p, k, child);
            && s'.Keys == at'.Keys && ChildsOk(at', s', q) && ParentOk(at', s', q)
            && ViewOf(s') == ViewOf(s)[q := ""]
  {
    assert Parent(p + [k]) == p && Last(p + [k]) == k;
  }

  lemma ChildAdded(at: Places, s: Snapshot, p: Path, k: string, child: RamNode)
    requires TreeOk(at, s) && p in at && p + [k] !in at && child !in at.Values
    ensures TreeOk(at[p + [k] := child], Grown(at, s, p, k, child))
    ensures ViewOf(Grown(at, s, p, k, child)) == ViewOf(s)[p + [k] := ""]
  {
    hide ChildsOk, ParentOk, Grown;
    var q := p + [k];
    var at', s' := at[q := child], Grown(at, s, p, k, child);
    ChildHere(at, s, p, k);
    GrownHere(at, s, p, k, child);
    forall r | r in at ensures ChildsOk(at', s', r) {
      assert ChildsOk(at, s, r);
      GrownChilds(at, s, p, k, child, r);
    }
    forall r | r in at ensures ParentOk(at', s', r) {
      assert ParentOk(at, s, r);
      GrownParent(at, s, p, k, child, r);
    }
  }

  lemma SnapGrown(at: Places, s: Snapshot, s': Snapshot, p: Path, k: string, child: RamNode)
    requires p in at && p in s && s'.Keys == s.Keys + {p + [k]}
    requires s'[p + [k]] == Fields(k, at[p], map[], "")
    requires s'[p] == s[p].(childs := s[p].childs[k := child])
    requires forall r :: r in s && r != p && r != p + [k] ==> s'[r] == s[r]
    ensures s' == Grown(at, s, p, k, child)
  {
  }

  lemma ValueSet(at: Places, s: Snapshot, p: Path, x: string)
    requires TreeOk(at, s) && p in at
    ensures TreeOk(at, s[p := s[p].(value := x)])
    ensures ViewOf(s[p := s[p].(value := x)]) == ViewOf(s)[p := x]
  {
    hide ChildsOk, ParentOk;
    var s' := s[p := s[p].(value := x)];
    forall r | r in at ensures ChildsOk(at, s', r) && ParentOk(at, s', r) {
      assert ChildsOk(at, s, r) && ParentOk(at, s, r);
      ValueHere(at, s, p, x, r);
    }
  }

  lemma ValueHere(at: Places, s: Snapshot, p: Path, x: string, r: Path)
    requires p in s && ChildsOk(at, s, r) && ParentOk(at, s, r)
    ensures ChildsOk(at, s[p := s[p].(value := x)], r) && ParentOk(at, s[p := s[p].(value := x)], r)
  {
  }

  ghost function Pruned<T>(m: map<Path, T>, p: Path): map<Path, T> {
    map q | q in m && !(p <= q) :: m[q]
  }

  /** The subtree at `p` was unlinked from its parent. */
  ghost function Unlinked(s: Snapshot, p: Path): Snapshot
    requires p != [] && Parent(p) in s
  {
    var u := s[Parent(p)];
    Pruned(s, p)[Parent(p) := u.(childs := u.childs - {Last(p)})]
  }

  lemma LongerBy(p: Path, r: Path, k: string)
    requires p != [] && !(p <= r)
    ensures p <= r + [k] <==> p == r + [k]
    ensures p == r + [k] <==> Parent(p) == r && Last(p) == k
  {
    assert p == Parent(p) + [Last(p)];
    if p <= r + [k] { PrefixOfSnoc(p, r, k); }
  }

  lemma PrefixOfSnoc(p: Path, r: Path, k: string)
    requires p <= r + [k]
    ensures p <= r || p == r + [k]
  {
    if |p| <= |r| { assert p == (r + [k])[..|p|] == r[..|p|]; }
  }

  lemma UnlinkedChilds(at: Places, s: Snapshot, p: Path, r: Path)
    requires p != [] && Parent(p) in s && ChildsOk(at, s, r) && !(p <= r)
    ensures ChildsOk(Pruned(at, p), Unlinked(s, p), r)
  {
    assert p == Parent(p) + [Last(p)];
    var s' := Unlinked(s, p);
    forall k | k in s'[r].childs ensures !(p <= r + [k]) {
      LongerBy(p, r, k);
    }
  }

  lemma UnlinkedParent(at: Places, s: Snapshot, p: Path, r: Path)
    requires p != [] && Parent(p) in s && ParentOk(at, s, r) && !(p <= r)
    ensures ParentOk(Pruned(at, p), Unlinked(s, p), r)
  {
    if r != [] {
      assert r == Parent(r) + [Last(r)] && p == Parent(p) + [Last(p)];
      assert p <= Parent(r) ==> p <= r;
    }
  }

  lemma ParentHere(at: Places, s: Snapshot, p: Path)
    requires TreeOk(at, s) && p in at && p != []
    ensures Parent(p) in s && !(p <= Parent(p))
  {
    assert ParentOk(at, s, p);
  }

  lemma UnlinkedView(s: Snapshot, p: Path)
    requires p != [] && Parent(p) in s
    ensures ViewOf(Unlinked(s, p)) == Pruned(ViewOf(s), p)
  {
  }

  lemma SubtreeRemoved(at: Places, s: Snapshot, p: Path)
    requires TreeOk(at, s) && p in at && p != []
    ensures Parent(p) in s && TreeOk(Pruned(at, p), Unlinked(s, p))
    ensures ViewOf(Unlinked(s, p)) == Pruned(ViewOf(s), p)
  {
    hide ChildsOk, ParentOk;
    ParentHere(at, s, p);
    UnlinkedView(s, p);
    forall r | r in at && !(p <= r) ensures ChildsOk(Pruned(at, p), Unlinked(s, p), r) {
      assert ChildsOk(at, s, r);
      UnlinkedChilds(at, s, p, r);
    }
    forall r | r in at && !(p <= r) ensures ParentOk(Pruned(at, p), Unlinked(s, p), r) {
      assert ParentOk(at, s, r);
      UnlinkedParent(at, s, p, r);
    }
  }

  class RamCachedDB {
    const root: RamNode
    ghost var at: Places
    var pendingChanges: bool

    ghost predicate Valid()
      reads this, at.Values
    {
      [] in at && TreeOk(at, Snap(at)) && at[[]] == root && root.value == ""
    }

    /** What the database stands for. */
    ghost function Contents(): View
      reads this, at.Values
    {
      ViewOf(Snap(at))
    }

    constructor ()
      ensures Valid() && fresh(at.Values) && Contents() == map[[] := ""] && !pendingChanges
    {
      root := new RamNode("", null);
      new;
      at := map[[] := root];
      pendingChanges := false;
      assert ChildsOk(at, Snap(at), []) && ParentOk(at, Snap(at), []);
    }

    /** Adds an empty child that is not there yet. */
    method AddChild(curr: RamNode, name: string, ghost p: Path) returns (child: RamNode)
      requires Valid() && p in at && at[p] == curr && name !in curr.childs
      modifies this`at, curr`childs
      ensures Valid() && p + [name] !in old(at) && at == old(at)[p + [name] := child] && fresh(child)
      ensures Contents() == old(Contents())[p + [name] := ""]
      ensures name in curr.childs && curr.childs[name] == child
    {
      hide TreeOk, ViewOf, Grown;
      ghost var q, at0, s0 := p + [name], at, Snap(at);
      Facts(at0, s0, p, name);
      child := new RamNode(name, curr);
      curr.childs := curr.childs[name := child];
      at := at[q := child];
      ChildAdded(at0, s0, p, name, child);
      SnapGrown(at0, s0, Snap(at), p, name, child);
    }

    /** The child that scrollTree goes on to, made if there is none and it may be. */
    method ChildOrNew(curr: RamNode, name: string, readOnly: bool, ghost p: Path) returns (child: RamNode?)
      requires Valid() && p in at && at[p] == curr
      modifies this`at, curr`childs
      ensures Valid() && at.Keys >= old(at).Keys && (forall q :: q in old(at) ==> at[q] == old(at)[q])
          && fresh(at.Values - old(at).Values)
      ensures readOnly || p + [name] in old(at) ==> at == old(at) && Contents() == old(Contents())
      ensures !readOnly && p + [name] !in old(at) ==> Contents() == old(Contents())[p + [name] := ""]
      ensures if readOnly && p + [name] !in old(at) then child == null else p + [name] in at && child == at[p + [name]]
    {
      hide TreeOk, ViewOf, Snap;
      SnapAt(at, p);
      Facts(at, Snap(at), p, name);
      if name !in curr.childs {
        if readOnly {
          return null;
        }
        child := AddChild(curr, name, p);
      } else {
        child := curr.childs[name];
      }
    }

    /** scrollTree: the node that `name` leads to from `curr`; without `readOnly` missing nodes are added. */
    method ScrollTree(name: string, curr: RamNode, readOnly: bool, ghost p: Path) returns (node: RamNode?)
      requires Valid() && p in at && at[p] == curr
      modifies this`at, at.Values`childs
      ensures Valid() && at.Keys >= old(at).Keys && (forall q :: q in old(at) ==> at[q] == old(at)[q])
          && fresh(at.Values - old(at).Values)
      ensures readOnly ==> at == old(at) && Contents() == old(Contents()) && (node == null <==> p + PathOf(name) !in at)
      ensures !readOnly ==> Contents() == Ensured(old(Contents()), p, PathOf(name)) && node != null
      ensures node != null ==> p + PathOf(name) in at && node == at[p + PathOf(name)]
      decreases |name|
    {
      hide TreeOk, ViewOf, Ensured, PathOf, Snap;
      var currName, remainingName := SplitName(name);
      ghost var q, more := p + [currName], MorePath(remainingName);
      assert p + PathOf(name) == q + more;
      EnsuredStep(Contents(), p, currName, more);
      ViewKeys(at, Snap(at));
      Unreachable(at, Snap(at), q, p + PathOf(name));
      var child := ChildOrNew(curr, currName, readOnly, p);
      if child == null {
        return null;
      }
      if remainingName == "" {
        EnsuredNone(Contents(), q, remainingName);
        return child;
      }
      node := ScrollTree(remainingName, child, readOnly, q);
    }

    /** Stores a value in the node at `p`. */
    method SetNodeValue(node: RamNode, v: string, ghost p: Path)
      requires Valid() && p != [] && p in at && at[p] == node
      modifies node`value
      ensures Valid() && Contents() == old(Contents())[p := v]
    {
      hide TreeOk, ViewOf;
      ghost var s0 := Snap(at);
      Facts(at, s0, p, "");
      Facts(at, s0, [], "");
      ValueSet(at, s0, p, v);
      node.value := v;
      assert Snap(at) == s0[p := s0[p].(value := v)];
    }

    /** delete(parent.childs, immediateName): the node at `p` and everything below it leave the tree. */
    method Unlink(item: RamNode, ghost p: Path)
      requires Valid() && p != [] && p in at && at[p] == item
      modifies this`at, at.Values`childs
      ensures Valid() && Contents() == Pruned(old(Contents()), p) && at.Values <= old(at).Values && item !in at.Values
    {
      hide TreeOk, ViewOf;
      ghost var at0, s0 := at, Snap(at);
      DeleteFacts(at0, s0, p);
      SubtreeRemoved(at0, s0, p);
      item.parent.childs := item.parent.childs - {item.immediateName};
      at := Pruned(at0, p);
      SnapUnlinked(at0, s0, at, Snap(at), p);
    }

    /** item.childs = make(...) on a node that has left the tree. */
    method ClearChilds(item: RamNode)
      requires Valid() && item !in at.Values
      modifies item`childs
      ensures Valid() && Contents() == old(Contents())
    {
      hide TreeOk, ViewOf;
      ghost var s0 := Snap(at);
      item.childs := map[];
      assert Snap(at) == s0;
    }

    method Set(name: string, v: string)
      requires Valid()
      modifies this, at.Values
      ensures Valid() && Contents() == SetAt(old(Contents()), PathOf(name), v)
      ensures fresh(at.Values - old(at).Values) && pendingChanges
    {
      hide TreeOk, ViewOf, Ensured, PathOf, Snap;
      assert [] + PathOf(name) == PathOf(name);
      var item := ScrollTree(name, root, false, []);
      SetNodeValue(item, v, PathOf(name));
      pendingChanges := true;
    }

    method Get(name: string, defaultValue: string) returns (value: string)
      requires Valid()
      modifies this`at, at.Values`childs
      ensures Valid() && at == old(at) && Contents() == old(Contents())
      ensures value == if PathOf(name) in Contents() then Contents()[PathOf(name)] else defaultValue
    {
      hide TreeOk, ViewOf, PathOf;
      Facts(at, Snap(at), [], "");
      assert [] + PathOf(name) == PathOf(name);
      var item := ScrollTree(name, root, true, []);
      ViewKeys(at, Snap(at));
      if item != null {
        return item.value;
      }
      value := defaultValue;
    }

    method HasValue(name: string) returns (has: bool)
      requires Valid()
      modifies this`at, at.Values`childs
      ensures Valid() && at == old(at) && Contents() == old(Contents())
      ensures has <==> PathOf(name) in Contents()
    {
      hide TreeOk, ViewOf, PathOf;
      Facts(at, Snap(at), [], "");
      assert [] + PathOf(name) == PathOf(name);
      var item := ScrollTree(name, root, true, []);
      ViewKeys(at, Snap(at));
      has := item != null;
    }

    /** The names of the immediate children; the empty name stands for the root here, and only here. */
    method GetChildNames(parentName: string) returns (names: set<string>)
      requires Valid()
      modifies this`at, at.Values`childs
      ensures Valid() && at == old(at) && Contents() == old(Contents())
      ensures forall k :: k in names <==> (if parentName == "" then [] else PathOf(parentName)) + [k] in Contents()
    {
      hide TreeOk, ViewOf, PathOf;
      Facts(at, Snap(at), [], "");
      ViewKeys(at, Snap(at));
      if parentName == "" {
        ChildsAre(at, Snap(at), []);
        return root.childs.Keys;
      }
      assert [] + PathOf(parentName) == PathOf(parentName);
      var item := ScrollTree(parentName, root, true, []);
      if item == null {
        NoChilds(at, Snap(at), PathOf(parentName));
        return {};
      }
      ChildsAre(at, Snap(at), PathOf(parentName));
      names := item.childs.Keys;
    }

    /** The part of DeleteValue that follows when there is a node.  The source empties the child table before it takes
        the node out of its parent's; the outcome is the same. */
    method RemoveNode(item: RamNode, deleteChildsInACascade: bool, ghost p: Path)
      requires Valid() && p != [] && p in at && at[p] == item
      modifies this`at, at.Values
      ensures Valid() && Contents() == DeleteAt(old(Contents()), p, deleteChildsInACascade)
      ensures at.Values <= old(at).Values
    {
      hide TreeOk, ViewOf, DeleteAt, Snap, Pruned;
      DeleteView(at, Snap(at), p, deleteChildsInACascade);
      NodeFacts(at, Snap(at), p);
      SetNodeValue(item, "", p);
      if deleteChildsInACascade || item.childs == map[] {
        if item.parent != null {
          Unlink(item, p);
          if deleteChildsInACascade {
            ClearChilds(item);
          }
        }
      }
    }

    /** Clears a value; the node goes when it has no children, or with all of them in a cascade. */
    method DeleteValue(name: string, deleteChildsInACascade: bool)
      requires Valid()
      modifies this, at.Values
      ensures Valid() && Contents() == DeleteAt(old(Contents()), PathOf(name), deleteChildsInACascade)
      ensures pendingChanges <==> old(pendingChanges) || PathOf(name) in old(Contents())
      ensures at.Values <= old(at).Values
    {
      hide TreeOk, ViewOf, PathOf, DeleteAt, Snap;
      ghost var p := PathOf(name);
      assert [] + p == p;
      ViewKeys(at, Snap(at));
      var item := ScrollTree(name, root, true, []);
      if item == null {
        DeleteView(at, Snap(at), p, deleteChildsInACascade);
        return;
      }
      RemoveNode(item, deleteChildsInACascade, p);
      pendingChanges := true;
    }

    /** dumpToStringLocked: a line for every nonempty value below a node.  Go visits the children of a node in
        no particular order; neither does this. */
    method DumpToStringLocked(current: RamNode, currentParentName: string, ghost p: Path, ghost h: nat)
      returns (text: string, ghost entries: seq<Entry>)
      requires Valid() && p in at && at[p] == current && currentParentName == FullName(p)
      requires forall q :: q in at ==> |q| <= h
      ensures text == TextOf(entries) && Dumps(Contents(), p, entries)
      decreases h - |p|
    {
      hide TreeOk, ViewOf, Snap, TextOf, FullName, Dumps, DumpsSome, Closed;
      text, entries := "", [];
      ViewClosed(at, Snap(at));
      DumpsNone(Contents(), p);
      var prefix := "";
      if currentParentName != "" {
        prefix := currentParentName + ".";
      }
      ghost var v := Contents();
      ViewKeys(at, Snap(at));
      ChildsAre(at, Snap(at), p);
      SnapAt(at, p);
      var todo := current.childs.Keys;
      assert current.childs.Keys - todo == {};
      while todo != {}
        invariant todo <= current.childs.Keys
        invariant text == TextOf(entries) && DumpsSome(v, p, current.childs.Keys - todo, entries)
        decreases todo
      {
        var k :| k in todo;
        ghost var q := p + [k];
        Facts(at, Snap(at), p, k);
        SnapAt(at, q);
        var c := current.childs[k];
        FullNameSnoc(p, k);
        var line := if c.value != "" then prefix + k + "=" + c.value + "\n" else "";
        var more, below := DumpToStringLocked(c, prefix + k, q, h);
        DumpStep(v, p, current.childs.Keys - todo, k, entries, c.value, below);
        text := text + line + more;
        entries := entries + Mine(q, c.value) + below;
        assert current.childs.Keys - (todo - {k}) == current.childs.Keys - todo + {k};
        todo := todo - {k};
      }
      assert current.childs.Keys - todo == current.childs.Keys;
      DumpsAll(v, p, current.childs.Keys, entries);
    }

    /** dump, without the file. */
    method Dump(ghost h: nat) returns (text: string, ghost entries: seq<Entry>)
      requires Valid() && forall q :: q in at ==> |q| <= h
      ensures text == TextOf(entries) && Dumps(Contents(), [], entries)
    {
      text, entries := DumpToStringLocked(root, "", [], h);
    }

    /** load, from the text of a dump file. */
    method Load(text: string)
      requires Valid()
      modifies this, at.Values
      ensures Valid() && Contents() == LoadAll(old(Contents()), SplitLines(text))
      ensures fresh(at.Values - old(at).Values) && !pendingChanges
    {
      hide TreeOk, ViewOf, PathOf, Ensured, Snap, SetAt, IsSpace;
      var lines := SplitLines(text);
      for i := 0 to |lines|
        invariant Valid() && fresh(at.Values - old(at).Values)
        invariant Contents() == LoadAll(old(Contents()), lines[..i])
      {
        LoadStep(old(Contents()), lines, i);
        var parsed := ParseLine(lines[i]);
        if parsed.Assign? {
          StoreLine(parsed.key, parsed.value);
        }
      }
      assert lines[..|lines|] == lines;
      pendingChanges := false;
    }

    /** The body of load's loop for a line with a key. */
    method StoreLine(key: string, value: string)
      requires Valid()
      modifies this`at, at.Values
      ensures Valid() && Contents() == SetAt(old(Contents()), PathOf(key), value)
      ensures fresh(at.Values - old(at).Values)
    {
      hide TreeOk, ViewOf, Ensured, PathOf, Snap;
      assert [] + PathOf(key) == PathOf(key);
      var item := ScrollTree(key, root, false, []);
      SetNodeValue(item, value, PathOf(key));
    }
  }

  lemma LoadStep(v: View, lines: seq<string>, i: nat)
    requires i < |lines|
    ensures LoadAll(v, lines[..i + 1]) == LoadLine(LoadAll(v, lines[..i]), lines[i])
  {
    assert lines[..i + 1][..i] == lines[..i];
  }

  /** The entries of a dump of the subtrees at the children `ks` of `p`. */
  ghost predicate DumpsSome(v: View, p: Path, ks: set<string>, entries: seq<Entry>) {
    && Once(entries)
    && (forall e :: e in entries ==> e.0 in v && p <= e.0 && e.0 != p && e.0[|p|] in ks && e.1 == v[e.0] && e.1 != "")
    && (forall q :: q in v && p <= q && q != p && q[|p|] in ks && v[q] != "" ==> (q, v[q]) in entries)
  }

  lemma DumpsNone(v: View, p: Path)
    ensures DumpsSome(v, p, {}, []) && TextOf([]) == ""
  {
  }

  lemma OnceAppend(a: seq<Entry>, b: seq<Entry>)
    requires Once(a) && Once(b) && forall d, e :: d in a && e in b ==> d.0 != e.0
    ensures Once(a + b)
  {
    forall i, j | 0 <= i < j < |a + b| ensures (a + b)[i].0 != (a + b)[j].0 {
      if i < |a| <= j { assert a[i] in a && b[j - |a|] in b; }
    }
  }

  /** What a child contributes: its own entry, and those below it. */
  lemma DumpsChild(v: View, p: Path, k: string, mine: seq<Entry>, below: seq<Entry>)
    requires p + [k] in v && Dumps(v, p + [k], below)
    requires mine == if v[p + [k]] != "" then [(p + [k], v[p + [k]])] else []
    ensures DumpsSome(v, p, {k}, mine + below)
  {
    var c, all := p + [k], mine + below;
    OnceAppend(mine, below);
    forall e | e in all ensures e.0 in v && p <= e.0 && e.0 != p && e.0[|p|] == k && e.1 == v[e.0] && e.1 != "" {
      assert c <= e.0 && p <= c && c[|p|] == k;
    }
    forall q | q in v && p <= q && q != p && q[|p|] == k && v[q] != "" ensures (q, v[q]) in all {
      assert c == q[..|p| + 1];
      if q != c { assert (q, v[q]) in below; } else { assert (q, v[q]) in mine; }
    }
  }

  lemma DumpsMore(v: View, p: Path, ks: set<string>, k: string, entries: seq<Entry>, mine: seq<Entry>,
      below: seq<Entry>)
    requires DumpsSome(v, p, ks, entries) && k !in ks && p + [k] in v && Dumps(v, p + [k], below)
    requires mine == if v[p + [k]] != "" then [(p + [k], v[p + [k]])] else []
    ensures DumpsSome(v, p, ks + {k}, entries + mine + below)
  {
    hide Once, Dumps;
    DumpsChild(v, p, k, mine, below);
    OnceAppend(entries, mine + below);
    assert entries + mine + below == entries + (mine + below);
  }

  lemma DumpsAll(v: View, p: Path, ks: set<string>, entries: seq<Entry>)
    requires Closed(v) && DumpsSome(v, p, ks, entries) && forall k :: p + [k] in v ==> k in ks
    ensures Dumps(v, p, entries)
  {
    hide Once;
    forall q | q in v && p <= q && q != p ensures q[|p|] in ks {
      Descends(v, p, q);
    }
  }

  ghost function Mine(q: Path, value: string): seq<Entry> {
    if value != "" then [(q, value)] else []
  }

  /** One round of the loop over the children of a node. */
  lemma DumpStep(v: View, p: Path, ks: set<string>, k: string, entries: seq<Entry>, value: string, below: seq<Entry>)
    requires DumpsSome(v, p, ks, entries) && k !in ks && p + [k] in v && v[p + [k]] == value && Dumps(v, p + [k], below)
    ensures var q := p + [k];
            && DumpsSome(v, p, ks + {k}, entries + Mine(q, value) + below)
            && TextOf(entries + Mine(q, value) + below)
               == TextOf(entries) + (if value != "" then FullName(q) + "=" + value + "\n" else "") + TextOf(below)
  {
    hide FullName, Dumps, DumpsSome;
    var mine := Mine(p + [k], value);
    DumpsMore(v, p, ks, k, entries, mine, below);
    TextAppend(entries, mine);
    TextAppend(entries + mine, below);
    if value != "" {
      assert TextOf(mine) == LineOf((p + [k], value)) + "\n" + TextOf([]);
    }
  }

  /** NewRamCacheDB: an empty database into which the dump file is loaded, twice in a row, as the source does. */
  method NewRamCacheDB(text: string) returns (db: RamCachedDB)
    ensures fresh(db) && fresh(db.at.Values) && db.Valid()
    ensures db.Contents() == LoadAll(map[[] := ""], SplitLines(text))
  {
    hide TreeOk, ViewOf, LoadAll, SplitLines, Snap;
    db := new RamCachedDB();
    db.Load(text);
    db.Load(text);
    assert Closed(map[[] := ""]);
    LoadTwice(map[[] := ""], SplitLines(text));
  }

  /** A database that is dumped and started again has exactly the nonempty values it had. */
  method DumpAndRestart(db: RamCachedDB, ghost h: nat) returns (db': RamCachedDB)
    requires db.Valid() && Clean(db.Contents() - {[]}) && forall q :: q in db.at ==> |q| <= h
    ensures fresh(db') && db'.Valid()
    ensures var v, w := db.Contents(), db'.Contents();
            && (forall q :: q in v && v[q] != "" ==> q in w && w[q] == v[q])
            && (forall q :: q in w && w[q] != "" ==> q in v && v[q] == w[q])
  {
    hide LoadAll, SplitLines, TreeOk, Clean, Dumps;
    var text, entries := db.Dump(h);
    RootValue(db.at, Snap(db.at), db.root);
    DumpLoads(db.Contents(), entries);
    db' := NewRamCacheDB(text);
  }

  lemma RootValue(at: Places, s: Snapshot, root: RamNode)
    requires TreeOk(at, s) && [] in at
    ensures Closed(ViewOf(s)) && [] in ViewOf(s) && ViewOf(s)[[]] == s[[]].value
  {
    ViewClosed(at, s);
  }

  /** What a delete finds in the fields of the node at `p`. */
  lemma NodeFacts(at: Places, s: Snapshot, p: Path)
    requires TreeOk(at, s) && s == Snap(at) && p in at && p != []
    ensures p in s && s[p].childs == at[p].childs && at[p].parent != null
  {
    assert ParentOk(at, s, p);
  }

  lemma SnapAt(at: Places, p: Path)
    requires p in at
    ensures p in Snap(at) && Snap(at)[p] == at[p].Now()
  {
  }

  lemma ChildsAre(at: Places, s: Snapshot, p: Path)
    requires TreeOk(at, s) && p in at
    ensures forall k :: k in s[p].childs.Keys <==> p + [k] in at
  {
    forall k ensures k in s[p].childs.Keys <==> p + [k] in at { ChildHere(at, s, p, k); }
  }

  lemma NoChilds(at: Places, s: Snapshot, p: Path)
    requires TreeOk(at, s)
    ensures forall k :: p + [k] in at ==> p in at
  {
    forall k | p + [k] in at ensures p in at { assert ParentOk(at, s, p + [k]) && Parent(p + [k]) == p; }
  }

  lemma HasChildAt(v: View, p: Path)
    ensures forall k :: p + [k] in v ==> HasChild(v, p)
  {
    forall k | p + [k] in v ensures HasChild(v, p) { assert Parent(p + [k]) == p; }
  }

  /** The node at `p`, its parent and its position, as a delete meets them. */
  lemma DeleteFacts(at: Places, s: Snapshot, p: Path)
    requires TreeOk(at, s) && p in at && p != []
    ensures Parent(p) in at && s[p].parent == at[Parent(p)] && s[p].name == Last(p) && Parent(p) != p
        && !(p <= Parent(p))
    ensures at[Parent(p)] != at[p] && s.Keys == at.Keys
    ensures forall q, r :: q in at && r in at && at[q] == at[r] ==> q == r
  {
    assert ParentOk(at, s, p);
  }

  /** The three outcomes of a delete. */
  lemma DeleteView(at: Places, s: Snapshot, p: Path, cascade: bool)
    requires TreeOk(at, s) && p != []
    ensures var v := ViewOf(s);
            && (p in v <==> p in at) && (p in v ==> p in s)
            && DeleteAt(v, p, cascade) == if p !in v then v else if cascade || s[p].childs == map[]
                then Pruned(v[p := ""], p) else v[p := ""]
  {
    hide TreeOk;
    var v := ViewOf(s);
    ViewKeys(at, s);
    ViewClosed(at, s);
    if p in v {
      ChildsAre(at, s, p);
      HasChildAt(v, p);
      NoneOrSome(v, p, s[p].childs);
      assert Pruned(v[p := ""], p) == Pruned(v, p);
    }
  }

  lemma NoneOrSome(v: View, p: Path, childs: map<string, RamNode>)
    requires Closed(v) && p in v && forall k :: k in childs.Keys <==> p + [k] in v
    ensures HasChild(v, p) <==> childs != map[]
    ensures !HasChild(v, p) ==> Pruned(v, p) == v - {p}
  {
    HasChildAt(v, p);
    if HasChild(v, p) {
      var q :| q in v && q != [] && Parent(q) == p;
      assert q == p + [Last(q)];
    } else {
      assert childs == map[];
      forall q | q in v && p <= q ensures q == p { Childless(v, p, q); }
    }
  }

  lemma SnapUnlinked(at: Places, s: Snapshot, at': Places, s': Snapshot, p: Path)
    requires TreeOk(at, s) && p in at && p != [] && Parent(p) in s && at' == Pruned(at, p) && s'.Keys == at'.Keys
    requires forall q :: q in at' && q != Parent(p) ==> s'[q] == s[q]
    requires Parent(p) in at' ==> s'[Parent(p)] == s[Parent(p)].(childs := s[Parent(p)].childs - {Last(p)})
    ensures s' == Unlinked(s, p)
  {
    assert p == Parent(p) + [Last(p)];
  }

  /** A path through a missing node is missing. */
  lemma Unreachable(at: Places, s: Snapshot, p: Path, q: Path)
    requires TreeOk(at, s) && p <= q
    ensures q in at ==> p in at
  {
    ViewClosed(at, s);
    if q in at {
      assert q in ViewOf(s);
      UpwardClosed(ViewOf(s), q, p);
    }
  }

  ghost function MorePath(remainingName: string): Path {
    if remainingName == "" then [] else PathOf(remainingName)
  }

  /** The first segment of a name, and what follows its dot. */
  method SplitName(name: string) returns (currName: string, remainingName: string)
    ensures PathOf(name) == [currName] + MorePath(remainingName)
    ensures remainingName == "" || |remainingName| < |name|
  {
    hide PathOf;
    currName, remainingName := name, "";
    if '.' in name {
      var indx := FirstOf(name, '.');
      assert name[..|name|] == name;
      currName, remainingName := name[..indx], name[indx + 1..];
      assert name == name[..indx] + [name[indx]] + name[indx + 1..];
      if remainingName != "" {
        assert name == currName + "." + remainingName;
        PathOfCons(currName, remainingName);
      } else {
        assert name == currName + ".";
        PathOfOne(currName);
      }
    } else {
      PathOfOne(name);
    }
  }

  lemma EnsuredNone(v: View, p: Path, remainingName: string)
    ensures remainingName == "" ==> Ensured(v, p, MorePath(remainingName)) == v && p + MorePath(remainingName) == p
  {
  }

  lemma ViewKeys(at: Places, s: Snapshot)
    requires TreeOk(at, s)
    ensures ViewOf(s).Keys == at.Keys && forall p :: p in at ==> ViewOf(s)[p] == s[p].value
  {
  }

  lemma EnsuredStep(v: View, p: Path, c: string, more: Path)
    ensures Ensured(v, p, [c] + more) == Ensured(if p + [c] in v then v else v[p + [c] := ""], p + [c], more)
  {
    assert ([c] + more)[1..] == more;
  }

  /** The parts of the invariant that methods need about one node. */
  lemma Facts(at: Places, s: Snapshot, p: Path, k: string)
    requires TreeOk(at, s) && p in at
    ensures s.Keys == at.Keys && [] in at
    ensures k in s[p].childs <==> p + [k] in at
    ensures k in s[p].childs ==> s[p].childs[k] == at[p + [k]]
    ensures forall q :: q in at && at[q] == at[p] ==> q == p
  {
    ChildHere(at, s, p, k);
  }
}
