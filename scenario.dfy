/** A directory layout for the plugin's own test suite, and what its
    requests resolve to.  The layout is not part of the sources: it is
    reconstructed from the requests the tests make and the results they
    expect (a `testDir` with leaves `v0` and `v1` and a sub-directory
    `test1` holding `v0`, next to the test file itself). */
module Scenario {
  import opened Wrappers
  import opened NodePath
  import opened Registry
  import opened RegistryFacts
  import opened Dispatch

  /** `testDir/test1`: one leaf `v0`. */
  function Test1(): Listing {
    Entries([Child("v0", Module(Invocable(2)))])
  }

  /** `testDir`: the leaves `v0` and `v1` and the branch `test1`. */
  function TestDir(): Listing {
    Entries([
      Child("v0", Module(Invocable(0))),
      Child("v1", Module(Invocable(1))),
      Child("test1", Folder(Test1()))])
  }

  /** `test/`: the test file, which the filter skips, and `testDir`. */
  function TestTree(): Listing {
    Entries([
      Child("index.test.js", Module(NullExport)),
      Child("testDir", Folder(TestDir()))])
  }

  lemma TestTreeReadable()
    ensures !UnreadableIn(TestTree(), Count(TestTree()))
  {
    assert !UnreadableIn(Test1(), 1);
    assert !UnreadableIn(TestDir(), 3) by {
      assert TestDir().children[2].node.listing == Test1();
    }
    assert TestTree().children[1].node.listing == TestDir();
  }

  lemma TestTreeUnique()
    ensures UniqueNames(TestTree())
  {
    assert UniqueNames(Test1());
    assert UniqueNames(TestDir()) by {
      assert TestDir().children[2].node.listing == Test1();
      assert "v0" != "v1" && "v0" != "test1" && "v1" != "test1";
    }
    assert TestTree().children[1].node.listing == TestDir();
    assert "index.test.js" != "testDir";
  }

  lemma KeyOfTwo(a: string, b: string)
    ensures KeyOf([a, b]) == "/" + a + "/" + b
  {
    assert [a, b][1..] == [b];
    assert Join([a, b]) == a + "/" + b;
    assert "/" + (a + "/" + b) == "/" + a + "/" + b;
  }

  lemma KeyOfThree(a: string, b: string, c: string)
    ensures KeyOf([a, b, c]) == "/" + a + "/" + b + "/" + c
  {
    assert [a, b, c][1..] == [b, c];
    assert [b, c][1..] == [c];
    assert Join([b, c]) == b + "/" + c;
    assert Join([a, b, c]) == a + "/" + (b + "/" + c);
    assert "/" + (a + "/" + (b + "/" + c)) == "/" + a + "/" + b + "/" + c;
  }

  /** The keys of the three leaves: rooted paths below the scanned root. */
  lemma TestKeys()
    ensures KeyOf(["testDir", "v0"]) == "/testDir/v0"
    ensures KeyOf(["testDir", "v1"]) == "/testDir/v1"
    ensures KeyOf(["testDir", "test1", "v0"]) == "/testDir/test1/v0"
  {
    KeyOfTwo("testDir", "v0");
    KeyOfTwo("testDir", "v1");
    KeyOfThree("testDir", "test1", "v0");
  }

  /** The only leaves of the test directory that pass the filter. */
  lemma TestLeaves(p: seq<string>, e: Export)
    requires NodeIn(TestTree(), Count(TestTree()), p, Module(e))
    ensures || (p == ["testDir", "v0"] && e == Invocable(0))
            || (p == ["testDir", "v1"] && e == Invocable(1))
            || (p == ["testDir", "test1", "v0"] && e == Invocable(2))
  {
    var x := Module(e);
    var i :| 0 <= i < 2 && AtChild(TestTree(), i, p, x);
    assert i == 1 by {
      assert !Visible("index.test.js") by {
        assert "index.test.js"[5] == '.';
      }
    }
    var q := p[1..];
    assert NodeIn(TestDir(), 3, q, x);
    var j :| 0 <= j < 3 && AtChild(TestDir(), j, q, x);
    if j == 2 {
      var r := q[1..];
      assert NodeIn(Test1(), 1, r, x);
      assert AtChild(Test1(), 0, r, x);
      assert r == ["v0"];
      assert p == [p[0]] + [q[0]] + r;
    } else {
      assert q == [q[0]];
      assert p == [p[0]] + q;
    }
  }

  /** The registry the walk builds for the test directory: the three
      leaves under their rooted paths, nothing from the skipped test file. */
  function TestRegistry(): Handlers {
    map["/testDir/v0" := Invocable(0), "/testDir/v1" := Invocable(1),
        "/testDir/test1/v0" := Invocable(2)]
  }

  /** The three leaves sit where the test requests expect them. */
  lemma TestPaths()
    ensures NodeIn(TestTree(), Count(TestTree()), ["testDir", "v0"], Module(Invocable(0)))
    ensures NodeIn(TestTree(), Count(TestTree()), ["testDir", "v1"], Module(Invocable(1)))
    ensures NodeIn(TestTree(), Count(TestTree()), ["testDir", "test1", "v0"], Module(Invocable(2)))
  {
    assert AtChild(TestTree(), 1, ["testDir", "v0"], Module(Invocable(0))) by {
      assert AtChild(TestDir(), 0, ["v0"], Module(Invocable(0)));
      assert ["testDir", "v0"][1..] == ["v0"];
    }
    assert AtChild(TestTree(), 1, ["testDir", "v1"], Module(Invocable(1))) by {
      assert AtChild(TestDir(), 1, ["v1"], Module(Invocable(1)));
      assert ["testDir", "v1"][1..] == ["v1"];
    }
    assert AtChild(TestTree(), 1, ["testDir", "test1", "v0"], Module(Invocable(2))) by {
      assert AtChild(Test1(), 0, ["v0"], Module(Invocable(2)));
      assert ["test1", "v0"][1..] == ["v0"];
      assert AtChild(TestDir(), 2, ["test1", "v0"], Module(Invocable(2)));
      assert ["testDir", "test1", "v0"][1..] == ["test1", "v0"];
    }
  }

  /** Every key of the built registry is one of the three expected ones. */
  lemma TestKeysOnly(k: string)
    requires Build(TestTree()).Success? && k in Build(TestTree()).value
    ensures k in TestRegistry()
  {
    var r := Build(TestTree()).value;
    TestKeys();
    BuildSound(TestTree(), k);
    var p :| NodeIn(TestTree(), Count(TestTree()), p, Module(r[k])) && k == KeyOf(p);
    TestLeaves(p, r[k]);
  }

  /** The test directory builds into exactly that registry, and no
      directory in it lists a name twice. */
  lemma TestTreeBuilds()
    ensures Build(TestTree()) == Success(TestRegistry()) && UniqueNames(TestTree())
  {
    BuildFails(TestTree());
    TestTreeReadable();
    TestTreeUnique();
    TestKeys();
    TestPaths();
    var r := Build(TestTree()).value;
    BuildExact(TestTree(), ["testDir", "v0"], Invocable(0));
    BuildExact(TestTree(), ["testDir", "v1"], Invocable(1));
    BuildExact(TestTree(), ["testDir", "test1", "v0"], Invocable(2));
    forall k | k in r
      ensures k in TestRegistry()
    {
      TestKeysOnly(k);
    }
    assert r == TestRegistry();
  }

  /** `/testDir/v0` is served by `testDir/v0`. */
  lemma RequestTestDirV0()
    ensures Resolve(Some(TestRegistry()), ["testDir", "v0"], None) == Invoke(0)
  {
    TestTreeBuilds();
    TestPaths();
    RoutesToLeaf(TestTree(), ["testDir", "v0"], 0);
  }

  /** `/testDir/test1/v0` is served by the nested leaf. */
  lemma RequestNested()
    ensures Resolve(Some(TestRegistry()), ["testDir", "test1", "v0"], None) == Invoke(2)
  {
    TestTreeBuilds();
    TestPaths();
    RoutesToLeaf(TestTree(), ["testDir", "test1", "v0"], 2);
  }

  /** `/testDir` with version `v1` is served by `testDir/v1`. */
  lemma RequestVersioned()
    ensures Resolve(Some(TestRegistry()), ["testDir"], Some("v1")) == Invoke(1)
  {
    TestTreeBuilds();
    TestPaths();
    assert ["testDir"] + ["v1"] == ["testDir", "v1"];
    RoutesToVersionedLeaf(TestTree(), ["testDir"], "v1", 1);
  }

  /** `/testDir2` is not found. */
  lemma RequestTestDir2NotFound()
    ensures Resolve(Some(TestRegistry()), ["testDir2"], None) == NotFound
  {
    TestTreeBuilds();
    SingleSegmentNotFound(TestTree(), "testDir2");
  }

  /** `/foo` is not found. */
  lemma RequestFooNotFound()
    ensures Resolve(Some(TestRegistry()), ["foo"], None) == NotFound
  {
    TestTreeBuilds();
    SingleSegmentNotFound(TestTree(), "foo");
  }

  /** `/` is not found. */
  lemma RequestRootNotFound()
    ensures Resolve(Some(TestRegistry()), [], None) == NotFound
  {
    TestTreeBuilds();
    RootNotFound(TestTree());
  }

  /** `/testDir/v0` is not found when no handlers were exposed. */
  lemma RequestWithoutHandlers()
    ensures Resolve(None, ["testDir", "v0"], None) == NotFound
  {
    NeverBuilt(["testDir", "v0"], None);
  }

  /** There is no entry at `testDir/v2`. */
  lemma NoTestDirV2(x: Entry)
    ensures !NodeIn(TestTree(), Count(TestTree()), ["testDir", "v2"], x)
  {
    var p := ["testDir", "v2"];
    forall j | 0 <= j < 3
      ensures !AtChild(TestDir(), j, ["v2"], x)
    {
      assert TestDir().children[j].name != "v2";
    }
    assert !NodeIn(TestDir(), 3, ["v2"], x);
    forall i | 0 <= i < 2
      ensures !AtChild(TestTree(), i, p, x)
    {
      if i == 1 {
        assert TestTree().children[1].node.listing == TestDir();
        assert p[1..] == ["v2"];
      } else {
        assert TestTree().children[0].name != "testDir";
      }
    }
  }

  /** `/testDir` with version `v2` is not found: there is no `testDir/v2`. */
  lemma RequestUnknownVersion()
    ensures Resolve(Some(TestRegistry()), ["testDir"], Some("v2")) == NotFound
  {
    TestTreeBuilds();
    assert ["testDir"] + ["v2"] == ["testDir", "v2"];
    forall e | true
      ensures !NodeIn(TestTree(), Count(TestTree()), ["testDir"] + ["v2"], Module(e))
    {
      NoTestDirV2(Module(e));
    }
    UnknownVersionNotFound(TestTree(), "testDir", "v2");
  }
}
