/** What the registry built from a directory tree contains: exactly the
    leaves reachable through names that pass the filter, each under its
    path relative to the root. */
module RegistryFacts {
  import opened Wrappers
  import opened NodePath
  import opened Registry

  /** The relative path of a directory reached through `dir`: `""` for the
      root itself, `"/a/b"` below it. */
  function RelOf(dir: seq<string>): string {
    if dir == [] then "" else "/" + Join(dir)
  }

  /** The key of the entry at path `p` (for non-empty `p`): a top-level
      entry is keyed by its bare name, a deeper one by a rooted path. */
  function KeyOf(p: seq<string>): string {
    if |p| == 1 then p[0] else "/" + Join(p)
  }

  /** Entry `x` sits at path `p` below one of the first `n` entries of `l`,
      every name on the way passing the filter. */
  ghost predicate NodeIn(l: Listing, n: nat, p: seq<string>, x: Entry)
    decreases |p|, 1
  {
    && l.Entries? && 1 <= |p| && n <= |l.children|
    && exists i :: 0 <= i < n && AtChild(l, i, p, x)
  }

  /** Entry `x` sits at path `p` below the `i`-th entry of `l`. */
  ghost predicate AtChild(l: Listing, i: nat, p: seq<string>, x: Entry)
    decreases |p|, 0
  {
    && l.Entries? && i < |l.children| && 1 <= |p|
    && l.children[i].name == p[0] && Visible(p[0])
    && (if |p| == 1 then l.children[i].node == x
        else l.children[i].node.Folder? &&
             NodeIn(l.children[i].node.listing, Count(l.children[i].node.listing), p[1..], x))
  }

  /** No directory lists the same name twice (as on a real file system). */
  ghost predicate UniqueNames(l: Listing)
    decreases l
  {
    l.Entries? ==>
      && (forall i, j :: 0 <= i < j < |l.children| ==> l.children[i].name != l.children[j].name)
      && (forall i :: 0 <= i < |l.children| && l.children[i].node.Folder? ==>
            UniqueNames(l.children[i].node.listing))
  }

  /** The walk of the first `n` entries meets a directory it cannot list. */
  ghost predicate UnreadableIn(l: Listing, n: nat)
    decreases l
  {
    || l.Unreadable?
    || (n <= |l.children| &&
        exists i :: 0 <= i < n && Visible(l.children[i].name) && l.children[i].node.Folder? &&
          UnreadableIn(l.children[i].node.listing, Count(l.children[i].node.listing)))
  }

  predicate AllVisible(p: seq<string>) {
    forall i :: 0 <= i < |p| ==> Visible(p[i])
  }

  // ---------------------------------------------------------------------
  // Keys: shape and uniqueness.

  lemma RelOfChild(dir: seq<string>, name: string)
    ensures ChildRel(RelOf(dir), name) == RelOf(dir + [name])
  {
    if dir != [] {
      JoinSnoc(dir, name);
    }
  }

  /** The key `path.join(rel, name)` that the walk computes is the
      closed-form key of the leaf's path. */
  lemma LeafKeyIsKeyOf(dir: seq<string>, name: string)
    requires AllSegments(dir) && Segment(name)
    ensures LeafKey(RelOf(dir), name) == KeyOf(dir + [name])
  {
    var p := dir + [name];
    assert AllSegments(p) by {
      assert forall i :: 0 <= i < |dir| ==> p[i] == dir[i];
    }
    if dir == [] {
      assert p == [name];
      NormalizeSegments([name]);
    } else {
      JoinSnoc(dir, name);
      NormalizeSegments(p);
      assert RelOf(dir) + "/" + name == "/" + Join(p);
    }
  }

  /** Different paths of plain segments never share a key. */
  lemma KeyOfInjective(p: seq<string>, q: seq<string>)
    requires 1 <= |p| && 1 <= |q| && AllSegments(p) && AllSegments(q)
    requires KeyOf(p) == KeyOf(q)
    ensures p == q
  {
    if |p| >= 2 && |q| >= 2 {
      assert Join(p) == KeyOf(p)[1..] == Join(q);
      SplitJoin(p);
      SplitJoin(q);
    }
  }

  /** A key made of filtered names holds neither `.` nor `_`. */
  lemma KeyOfFiltered(p: seq<string>)
    requires 1 <= |p| && AllVisible(p)
    ensures '.' !in KeyOf(p) && '_' !in KeyOf(p)
  {
    if |p| >= 2 {
      var j := Join(p);
      assert KeyOf(p) == "/" + j;
      forall c | c == '.' || c == '_'
        ensures c !in KeyOf(p)
      {
        if c in j {
          JoinChars(p, c);
        }
      }
    }
  }

  // ---------------------------------------------------------------------
  // Paths in the tree.

  lemma {:induction false} NodeInShape(l: Listing, n: nat, p: seq<string>, x: Entry)
    requires NodeIn(l, n, p, x)
    ensures 1 <= |p| && AllSegments(p) && AllVisible(p)
    decreases |p|
  {
    var i :| 0 <= i < n && AtChild(l, i, p, x);
    assert Segment(p[0]) by {
      assert p[0] != "." by { assert '.' in "."; }
    }
    if |p| > 1 {
      var sub := l.children[i].node.listing;
      NodeInShape(sub, Count(sub), p[1..], x);
      assert forall k :: 1 <= k < |p| ==> p[k] == p[1..][k - 1];
    }
  }

  lemma NodeInGrow(l: Listing, m: nat, n: nat, p: seq<string>, x: Entry)
    requires m <= n <= Count(l) && NodeIn(l, m, p, x)
    ensures NodeIn(l, n, p, x)
  {
    var i :| 0 <= i < m && AtChild(l, i, p, x);
    assert 0 <= i < n;
  }

  /** With unique names a path leads to at most one entry. */
  lemma {:induction false} NodeUnique(l: Listing, p: seq<string>, x: Entry, y: Entry)
    requires UniqueNames(l) && NodeIn(l, Count(l), p, x) && NodeIn(l, Count(l), p, y)
    ensures x == y
    decreases |p|
  {
    var i :| 0 <= i < Count(l) && AtChild(l, i, p, x);
    var j :| 0 <= j < Count(l) && AtChild(l, j, p, y);
    assert i == j by {
      if i < j || j < i { assert false; }
    }
    if |p| > 1 {
      NodeUnique(l.children[i].node.listing, p[1..], x, y);
    }
  }

  // ---------------------------------------------------------------------
  // The walk records exactly the filtered leaves.

  lemma AppendSegment(dir: seq<string>, name: FileName)
    requires AllSegments(dir) && Visible(name)
    ensures AllSegments(dir + [name])
  {
    assert '.' in ".";
    var p := dir + [name];
    assert forall i :: 0 <= i < |dir| ==> p[i] == dir[i];
  }

  /** Key `k` and export `e` belong to a filtered leaf at some path `p`
      below the first `n` entries of `l`, `l` being reached through `dir`. */
  ghost predicate LeafRegistration(dir: seq<string>, l: Listing, n: nat, k: string, e: Export) {
    exists p :: NodeIn(l, n, p, Module(e)) && k == KeyOf(dir + p)
  }

  lemma RegistrationGrow(dir: seq<string>, l: Listing, n: nat, k: string, e: Export)
    requires 0 < n <= Count(l) && LeafRegistration(dir, l, n - 1, k, e)
    ensures LeafRegistration(dir, l, n, k, e)
  {
    var p :| NodeIn(l, n - 1, p, Module(e)) && k == KeyOf(dir + p);
    NodeInGrow(l, n - 1, n, p, Module(e));
  }

  lemma RegistrationOfModule(dir: seq<string>, l: Listing, n: nat, e: Export)
    requires AllSegments(dir) && 0 < n <= Count(l)
    requires Visible(l.children[n - 1].name) && l.children[n - 1].node == Module(e)
    ensures LeafRegistration(dir, l, n, LeafKey(RelOf(dir), l.children[n - 1].name), e)
  {
    var name := l.children[n - 1].name;
    AppendSegment(dir, name);
    LeafKeyIsKeyOf(dir, name);
    assert AtChild(l, n - 1, [name], Module(e));
    assert NodeIn(l, n, [name], Module(e));
  }

  lemma RegistrationOfNested(dir: seq<string>, l: Listing, n: nat, k: string, e: Export)
    requires 0 < n <= Count(l)
    requires Visible(l.children[n - 1].name) && l.children[n - 1].node.Folder?
    requires LeafRegistration(dir + [l.children[n - 1].name], l.children[n - 1].node.listing,
                              Count(l.children[n - 1].node.listing), k, e)
    ensures LeafRegistration(dir, l, n, k, e)
  {
    var name := l.children[n - 1].name;
    var sub := l.children[n - 1].node.listing;
    var inner := dir + [name];
    assert LeafRegistration(inner, sub, Count(sub), k, e);
    var q :| NodeIn(sub, Count(sub), q, Module(e)) && k == KeyOf(inner + q);
    var p := [name] + q;
    assert p[1..] == q;
    assert dir + p == inner + q;
    assert AtChild(l, n - 1, p, Module(e));
    assert NodeIn(l, n, p, Module(e));
  }

  /** Every registration the walk makes is for a filtered leaf, keyed by
      its path. */
  lemma {:induction false} LeafListSound(dir: seq<string>, l: Listing, n: nat)
    requires AllSegments(dir) && n <= Count(l)
    requires LeafList(RelOf(dir), l, n).Success?
    ensures var ps := LeafList(RelOf(dir), l, n).value;
      forall j :: 0 <= j < |ps| ==> LeafRegistration(dir, l, n, ps[j].0, ps[j].1)
    decreases l, n
  {
    var rel := RelOf(dir);
    var ps := LeafList(rel, l, n).value;
    if n > 0 {
      var done := LeafList(rel, l, n - 1).value;
      LeafListSound(dir, l, n - 1);
      var c := l.children[n - 1];
      if Visible(c.name) && c.node.Folder? {
        AppendSegment(dir, c.name);
        RelOfChild(dir, c.name);
        LeafListSound(dir + [c.name], c.node.listing, Count(c.node.listing));
      }
      forall j | 0 <= j < |ps|
        ensures LeafRegistration(dir, l, n, ps[j].0, ps[j].1)
      {
        if j < |done| {
          assert ps[j] == done[j];
          RegistrationGrow(dir, l, n, ps[j].0, ps[j].1);
        } else {
          match c.node
          case Module(e) =>
            assert ps[j] == (LeafKey(rel, c.name), e);
            RegistrationOfModule(dir, l, n, e);
          case Folder(sub) =>
            var more := LeafList(ChildRel(rel, c.name), sub, Count(sub)).value;
            assert ps[j] == more[j - |done|];
            RegistrationOfNested(dir, l, n, ps[j].0, ps[j].1);
        }
      }
    }
  }

  /** The registrations for the first `n` entries contain `(k, e)`. */
  ghost predicate Registers(dir: seq<string>, l: Listing, n: nat, k: string, e: Export)
    requires n <= Count(l)
  {
    var r := LeafList(RelOf(dir), l, n);
    r.Success? && exists j :: 0 <= j < |r.value| && r.value[j] == (k, e)
  }

  lemma RegistersGrow(dir: seq<string>, l: Listing, n: nat, k: string, e: Export)
    requires 0 < n <= Count(l) && Registers(dir, l, n - 1, k, e)
    requires LeafList(RelOf(dir), l, n).Success?
    ensures Registers(dir, l, n, k, e)
  {
    var done := LeafList(RelOf(dir), l, n - 1).value;
    var ps := LeafList(RelOf(dir), l, n).value;
    var j :| 0 <= j < |done| && done[j] == (k, e);
    assert ps[..|done|] == done;
    assert ps[j] == done[j];
  }

  lemma RegistersNested(dir: seq<string>, l: Listing, n: nat, k: string, e: Export)
    requires 0 < n <= Count(l)
    requires Visible(l.children[n - 1].name) && l.children[n - 1].node.Folder?
    requires LeafList(RelOf(dir), l, n).Success?
    requires Registers(dir + [l.children[n - 1].name], l.children[n - 1].node.listing,
                       Count(l.children[n - 1].node.listing), k, e)
    ensures Registers(dir, l, n, k, e)
  {
    var name := l.children[n - 1].name;
    var sub := l.children[n - 1].node.listing;
    RelOfChild(dir, name);
    var done := LeafList(RelOf(dir), l, n - 1).value;
    var more := LeafList(RelOf(dir + [name]), sub, Count(sub)).value;
    var ps := LeafList(RelOf(dir), l, n).value;
    assert ps == done + more;
    var j :| 0 <= j < |more| && more[j] == (k, e);
    assert ps[|done| + j] == more[j];
  }

  /** Every filtered leaf is registered under its path's key. */
  lemma {:induction false} LeafListComplete(dir: seq<string>, l: Listing, n: nat, p: seq<string>, e: Export)
    requires AllSegments(dir) && n <= Count(l)
    requires LeafList(RelOf(dir), l, n).Success?
    requires NodeIn(l, n, p, Module(e))
    ensures Registers(dir, l, n, KeyOf(dir + p), e)
    decreases l, n
  {
    var rel := RelOf(dir);
    var i :| 0 <= i < n && AtChild(l, i, p, Module(e));
    var c := l.children[n - 1];
    if i < n - 1 {
      assert NodeIn(l, n - 1, p, Module(e));
      LeafListComplete(dir, l, n - 1, p, e);
      RegistersGrow(dir, l, n, KeyOf(dir + p), e);
    } else {
      AppendSegment(dir, c.name);
      if |p| == 1 {
        var done := LeafList(rel, l, n - 1).value;
        var ps := LeafList(rel, l, n).value;
        assert ps == done + [(LeafKey(rel, c.name), e)];
        LeafKeyIsKeyOf(dir, c.name);
        assert p == [c.name];
        assert ps[|done|] == (KeyOf(dir + p), e);
      } else {
        var sub := c.node.listing;
        RelOfChild(dir, c.name);
        LeafListComplete(dir + [c.name], sub, Count(sub), p[1..], e);
        assert p == [c.name] + p[1..];
        assert dir + [c.name] + p[1..] == dir + p;
        RegistersNested(dir, l, n, KeyOf(dir + p), e);
      }
    }
  }

  /** The walk fails exactly when it reaches a directory it cannot list. */
  lemma {:induction false} LeafListFails(rel: string, l: Listing, n: nat)
    requires n <= Count(l)
    ensures LeafList(rel, l, n).Failure? <==> UnreadableIn(l, n)
    decreases l, n
  {
    if l.Entries? && n > 0 {
      LeafListFails(rel, l, n - 1);
      var c := l.children[n - 1];
      if Visible(c.name) && c.node.Folder? {
        LeafListFails(ChildRel(rel, c.name), c.node.listing, Count(c.node.listing));
      }
      if UnreadableIn(l, n) {
        var i :| 0 <= i < n && Visible(l.children[i].name) && l.children[i].node.Folder? &&
          UnreadableIn(l.children[i].node.listing, Count(l.children[i].node.listing));
        if i < n - 1 {
          assert UnreadableIn(l, n - 1);
        }
      }
    }
  }

  // ---------------------------------------------------------------------
  // The registry `assignHandlers` returns.

  /** Every key holds the export of a filtered leaf at the key's path. */
  lemma BuildSound(root: Listing, k: string)
    requires Build(root).Success? && k in Build(root).value
    ensures exists p :: NodeIn(root, Count(root), p, Module(Build(root).value[k])) && k == KeyOf(p)
  {
    var ps := LeafList("", root, Count(root)).value;
    var r := Build(root).value;
    InsertAllWitness(ps, k);
    var j :| 0 <= j < |ps| && ps[j] == (k, r[k]);
    LeafListSound([], root, Count(root));
    assert LeafRegistration([], root, Count(root), ps[j].0, ps[j].1);
    var p :| NodeIn(root, Count(root), p, Module(ps[j].1)) && ps[j].0 == KeyOf([] + p);
    assert [] + p == p;
  }

  /** No key has `.` or `_` in it: filtered entries and everything below
      them are left out. */
  lemma BuildKeysFiltered(root: Listing, k: string)
    requires Build(root).Success? && k in Build(root).value
    ensures '.' !in k && '_' !in k
  {
    BuildSound(root, k);
    var p :| NodeIn(root, Count(root), p, Module(Build(root).value[k])) && k == KeyOf(p);
    NodeInShape(root, Count(root), p, Module(Build(root).value[k]));
    KeyOfFiltered(p);
  }

  /** Every filtered leaf has a key. */
  lemma BuildComplete(root: Listing, p: seq<string>, e: Export)
    requires Build(root).Success?
    requires NodeIn(root, Count(root), p, Module(e))
    ensures KeyOf(p) in Build(root).value
  {
    var ps := LeafList("", root, Count(root)).value;
    LeafListComplete([], root, Count(root), p, e);
    assert [] + p == p;
    var j :| 0 <= j < |ps| && ps[j] == (KeyOf(p), e);
    assert ps[j].0 in (set i | 0 <= i < |ps| :: ps[i].0);
  }

  /** With unique names, a leaf's key holds exactly that leaf's export. */
  lemma BuildExact(root: Listing, p: seq<string>, e: Export)
    requires Build(root).Success? && UniqueNames(root)
    requires NodeIn(root, Count(root), p, Module(e))
    ensures KeyOf(p) in Build(root).value && Build(root).value[KeyOf(p)] == e
  {
    var r := Build(root).value;
    var k := KeyOf(p);
    BuildComplete(root, p, e);
    BuildSound(root, k);
    var q :| NodeIn(root, Count(root), q, Module(r[k])) && k == KeyOf(q);
    NodeInShape(root, Count(root), p, Module(e));
    NodeInShape(root, Count(root), q, Module(r[k]));
    KeyOfInjective(p, q);
    NodeUnique(root, p, Module(e), Module(r[k]));
  }

  /** With unique names, a branch is never a key itself. */
  lemma BranchNeverKey(root: Listing, p: seq<string>, sub: Listing)
    requires Build(root).Success? && UniqueNames(root)
    requires NodeIn(root, Count(root), p, Folder(sub))
    ensures KeyOf(p) !in Build(root).value
  {
    var r := Build(root).value;
    var k := KeyOf(p);
    if k in r {
      BuildSound(root, k);
      var q :| NodeIn(root, Count(root), q, Module(r[k])) && k == KeyOf(q);
      NodeInShape(root, Count(root), p, Folder(sub));
      NodeInShape(root, Count(root), q, Module(r[k]));
      KeyOfInjective(p, q);
      NodeUnique(root, p, Folder(sub), Module(r[k]));
    }
  }

  /** The scan is aborted exactly when it meets a directory it cannot list. */
  lemma BuildFails(root: Listing)
    ensures Build(root).Failure? <==> UnreadableIn(root, Count(root))
  {
    LeafListFails("", root, Count(root));
  }
}
