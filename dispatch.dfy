/** The dispatch resolver (`directRoute`).  The request's path segments
    become a lookup path; two strategies are tried in order (the versioned
    key, then the plain normalised key) and the first one that yields an
    invocable export wins; otherwise the request is not found.  The
    registry is passed in as the plugin namespace: `None` when no
    `handlers` object was ever exposed. */
module Dispatch {
  import opened Wrappers
  import opened NodePath
  import opened Registry
  import opened RegistryFacts

  /** What the resolver hands back to the host: the matched handler to
      invoke, or a not-found reply. */
  datatype Outcome = Invoke(handler: HandlerId) | NotFound

  /** What one strategy's lookup returns: the error it caught, `undefined`
      for a key that is not there, or the stored export. */
  datatype Probe = Thrown | Absent | Present(value: Export)

  /** A probe that counts as "strategy did not match": an error, a null or
      undefined value, or a stored export that is an Error or null. */
  predicate Misses(p: Probe) {
    !(p.Present? && p.value.Invocable?)
  }

  /** The lookup path built from the request segments: the relative path
      of the directory those segments name.  Normalisation (strategy 2)
      leaves it alone, and splitting it reads the segments back. */
  function UriParams(segs: seq<string>): (u: string)
    ensures u == "" <==> segs == []
    ensures segs != [] && AllSegments(segs) ==> Normalize(u) == u && Clean(Split(u)) == segs
  {
    RelOfReadsBack(segs);
    RelOf(segs)
  }

  /** A rooted path of plain segments is normal and splits back into them. */
  lemma RelOfReadsBack(segs: seq<string>)
    ensures segs != [] && AllSegments(segs) ==>
      Normalize(RelOf(segs)) == RelOf(segs) && Clean(Split(RelOf(segs))) == segs
  {
    if segs != [] && AllSegments(segs) {
      NormalizeSegments(segs);
      CleanSplitOfJoin(true, segs);
    }
  }

  /** Reading `handlers[key]` from the plugin namespace.  A missing
      namespace or a key that could not be computed throws. */
  function Lookup(ns: Option<Handlers>, key: Option<string>): (p: Probe)
    ensures p.Thrown? <==> ns.None? || key.None?
    ensures p.Present? ==> key.value in ns.value && p.value == ns.value[key.value]
    ensures ns.Some? && key.Some? ==> (p.Present? <==> key.value in ns.value)
  {
    if ns.None? || key.None? then Thrown
    else if key.value in ns.value then Present(ns.value[key.value])
    else Absent
  }

  /** Strategy 1's key, `path.join(uriParams, version)`; `None` stands for
      the exception `path.join` raises when the version is absent. */
  function VersionedKey(segs: seq<string>, version: Option<string>): (k: Option<string>)
    ensures k.None? <==> version.None?
    ensures version == Some("") ==> k == Some(PlainKey(segs))
    ensures version.Some? && AllSegments(segs) && Segment(version.value) ==>
      k == Some(KeyOf(segs + [version.value]))
  {
    if version.None? then None
    else
      LeafKeyClosedForm(segs, version.value);
      Some(PathJoin(UriParams(segs), version.value))
  }

  /** `path.join` of a directory's relative path and a plain name is the
      key of the leaf at the extended path. */
  lemma LeafKeyClosedForm(segs: seq<string>, v: string)
    ensures AllSegments(segs) && Segment(v) ==> LeafKey(RelOf(segs), v) == KeyOf(segs + [v])
  {
    if AllSegments(segs) && Segment(v) {
      LeafKeyIsKeyOf(segs, v);
    }
  }

  /** Strategy 2's key, `path.normalize(uriParams)`. */
  function PlainKey(segs: seq<string>): (k: string)
    ensures segs == [] ==> k == "."
    ensures segs != [] && AllSegments(segs) ==> k == UriParams(segs)
  {
    Normalize(UriParams(segs))
  }

  /** The strategy list, in priority order, each as the value it returns. */
  function Strategies(ns: Option<Handlers>, segs: seq<string>, version: Option<string>): seq<Probe>
  {
    [Lookup(ns, VersionedKey(segs, version)), Lookup(ns, Some(PlainKey(segs)))]
  }

  /** The first strategy that matches decides; none matching is not-found. */
  function FirstHit(probes: seq<Probe>): (o: Outcome)
    ensures o.NotFound? <==> forall i :: 0 <= i < |probes| ==> Misses(probes[i])
    ensures o.Invoke? ==>
      exists i :: 0 <= i < |probes| && !Misses(probes[i]) && probes[i].value.id == o.handler &&
        forall j :: 0 <= j < i ==> Misses(probes[j])
  {
    if probes == [] then NotFound
    else if !Misses(probes[0]) then Invoke(probes[0].value.id)
    else
      var rest := FirstHit(probes[1..]);
      assert forall i :: 1 <= i < |probes| ==> probes[i] == probes[1..][i - 1];
      if rest.Invoke? then
        var i :| 0 <= i < |probes[1..]| && !Misses(probes[1..][i]) &&
          probes[1..][i].value.id == rest.handler && forall j :: 0 <= j < i ==> Misses(probes[1..][j]);
        assert forall j :: 0 <= j < i + 1 ==> Misses(probes[j]);
        rest
      else rest
  }

  /** The outcome of resolving a request. */
  function Resolve(ns: Option<Handlers>, segs: seq<string>, version: Option<string>): Outcome {
    FirstHit(Strategies(ns, segs, version))
  }

  /** `directRoute`: try the strategies in order and stop at the first one
      that matches. */
  method DirectRoute(ns: Option<Handlers>, segs: seq<string>, version: Option<string>) returns (o: Outcome)
    ensures o == Resolve(ns, segs, version)
  {
    var resolutions := Strategies(ns, segs, version);
    var i := 0;
    while i < |resolutions|
      invariant 0 <= i <= |resolutions|
      invariant forall j :: 0 <= j < i ==> Misses(resolutions[j])
    {
      var handler := resolutions[i];
      if !Misses(handler) {
        assert FirstHit(resolutions) == Invoke(handler.value.id) by {
          if i == 1 {
            assert resolutions[1..] == [handler];
          }
        }
        return Invoke(handler.value.id);
      }
      i := i + 1;
    }
    return NotFound;
  }

  // ---------------------------------------------------------------------
  // Strategy priority and fallback.

  /** The registry holds an invocable export under `key`. */
  predicate HitsAt(ns: Option<Handlers>, key: Option<string>) {
    ns.Some? && key.Some? && key.value in ns.value && ns.value[key.value].Invocable?
  }

  /** A versioned match wins even when the plain key also matches. */
  lemma VersionedFirst(ns: Option<Handlers>, segs: seq<string>, version: Option<string>)
    requires HitsAt(ns, VersionedKey(segs, version))
    ensures Resolve(ns, segs, version) == Invoke(ns.value[VersionedKey(segs, version).value].id)
  {
  }

  /** The plain key is consulted exactly when the versioned one misses. */
  lemma PlainFallback(ns: Option<Handlers>, segs: seq<string>, version: Option<string>)
    requires !HitsAt(ns, VersionedKey(segs, version))
    ensures Resolve(ns, segs, version) ==
      if HitsAt(ns, Some(PlainKey(segs))) then Invoke(ns.value[PlainKey(segs)].id) else NotFound
  {
    var probes := Strategies(ns, segs, version);
    assert Misses(probes[0]);
    assert probes[1..] == [probes[1]];
  }

  /** Not-found is returned exactly when neither strategy matches. */
  lemma NotFoundIff(ns: Option<Handlers>, segs: seq<string>, version: Option<string>)
    ensures Resolve(ns, segs, version) == NotFound <==>
      !HitsAt(ns, VersionedKey(segs, version)) && !HitsAt(ns, Some(PlainKey(segs)))
  {
    var probes := Strategies(ns, segs, version);
    assert Misses(probes[0]) <==> !HitsAt(ns, VersionedKey(segs, version));
    assert Misses(probes[1]) <==> !HitsAt(ns, Some(PlainKey(segs)));
  }

  /** Without a handlers namespace every request is not found. */
  lemma NeverBuilt(segs: seq<string>, version: Option<string>)
    ensures Resolve(None, segs, version) == NotFound
  {
    NotFoundIff(None, segs, version);
  }

  /** An empty version token behaves exactly like an absent one: both
      strategies then look up the same key. */
  lemma EmptyVersionIsNoVersion(ns: Option<Handlers>, segs: seq<string>)
    ensures VersionedKey(segs, Some("")) == Some(PlainKey(segs))
    ensures Resolve(ns, segs, Some("")) == Resolve(ns, segs, None)
  {
    PlainFallback(ns, segs, None);
    if !HitsAt(ns, Some(PlainKey(segs))) {
      NotFoundIff(ns, segs, Some(""));
    }
  }

  // ---------------------------------------------------------------------
  // Requests against a registry built by `assignHandlers`.

  /** The root request without a version is never found. */
  lemma RootNotFound(root: Listing)
    requires Build(root).Success?
    ensures Resolve(Some(Build(root).value), [], None) == NotFound
  {
    var r := Build(root).value;
    assert PlainKey([]) == ".";
    if "." in r {
      BuildKeysFiltered(root, ".");
    }
    NotFoundIff(Some(r), [], None);
  }

  /** Keys below the top level are rooted paths of at least two names; a
      top-level key is a bare name. */
  lemma BuiltKeyShape(root: Listing, k: string)
    requires Build(root).Success? && k in Build(root).value
    ensures k != "" && k != "/"
    ensures k[0] != '/' ==> '/' !in k
    ensures k[0] == '/' ==> '/' in k[1..]
  {
    BuildSound(root, k);
    var p :| NodeIn(root, Count(root), p, Module(Build(root).value[k])) && k == KeyOf(p);
    NodeInShape(root, Count(root), p, Module(Build(root).value[k]));
    JoinFirstLast(p);
    if |p| >= 2 {
      JoinHasSeparator(p);
      assert k[1..] == Join(p);
    }
  }

  /** A one-segment request without a version is never found: its plain
      key is `/name`, while a top-level leaf is stored under `name`. */
  lemma SingleSegmentNotFound(root: Listing, s: string)
    requires Build(root).Success? && '/' !in s
    ensures Resolve(Some(Build(root).value), [s], None) == NotFound
  {
    var r := Build(root).value;
    var key := PlainKey([s]);
    assert UriParams([s]) == "/" + s;
    if s == "" {
      assert Split("/") == [""] + Split("");
      assert key == "/";
    } else if s == "." {
      assert "/."[1..] == ".";
      assert "."[1..] == "";
      assert Split(".") == ["."];
      assert Split("/.") == [""] + Split(".");
      assert key == "/";
    } else {
      assert AllPieces([s]);
      RenderIsNormal(true, [s], false);
      assert Render(true, [s], false) == "/" + s;
      assert key == "/" + s;
      assert key[1..] == s;
    }
    if key in r {
      BuiltKeyShape(root, key);
    }
    NotFoundIff(Some(r), [s], None);
  }

  /** A request of two or more names without a version reaches the leaf
      at that path. */
  lemma RoutesToLeaf(root: Listing, segs: seq<string>, h: HandlerId)
    requires Build(root).Success? && UniqueNames(root)
    requires NodeIn(root, Count(root), segs, Module(Invocable(h))) && |segs| >= 2
    ensures Resolve(Some(Build(root).value), segs, None) == Invoke(h)
  {
    NodeInShape(root, Count(root), segs, Module(Invocable(h)));
    NormalizeSegments(segs);
    assert PlainKey(segs) == KeyOf(segs);
    BuildExact(root, segs, Invocable(h));
    PlainFallback(Some(Build(root).value), segs, None);
  }

  /** A request with version `v` reaches the leaf at `segs + [v]`, whatever
      is stored under the unversioned key (for an empty `segs` that leaf
      is a top-level one). */
  lemma RoutesToVersionedLeaf(root: Listing, segs: seq<string>, v: string, h: HandlerId)
    requires Build(root).Success? && UniqueNames(root)
    requires NodeIn(root, Count(root), segs + [v], Module(Invocable(h)))
    ensures Resolve(Some(Build(root).value), segs, Some(v)) == Invoke(h)
  {
    var p := segs + [v];
    NodeInShape(root, Count(root), p, Module(Invocable(h)));
    assert forall i :: 0 <= i < |segs| ==> segs[i] == p[i];
    assert v == p[|p| - 1];
    assert VersionedKey(segs, Some(v)) == Some(KeyOf(p));
    BuildExact(root, p, Invocable(h));
    VersionedFirst(Some(Build(root).value), segs, Some(v));
  }

  /** A one-name request whose version names no leaf below it is not
      found: the unversioned key `/name` is never a key either. */
  lemma UnknownVersionNotFound(root: Listing, s: string, v: string)
    requires Build(root).Success? && Segment(s) && Segment(v)
    requires forall e :: !NodeIn(root, Count(root), [s] + [v], Module(e))
    ensures Resolve(Some(Build(root).value), [s], Some(v)) == NotFound
  {
    var r := Build(root).value;
    var p := [s] + [v];
    assert AllSegments([s]);
    assert VersionedKey([s], Some(v)) == Some(KeyOf(p));
    if KeyOf(p) in r {
      BuildSound(root, KeyOf(p));
      var q :| NodeIn(root, Count(root), q, Module(r[KeyOf(p)])) && KeyOf(p) == KeyOf(q);
      NodeInShape(root, Count(root), q, Module(r[KeyOf(p)]));
      assert AllSegments(p);
      KeyOfInjective(p, q);
    }
    SingleSegmentNotFound(root, s);
    NotFoundIff(Some(r), [s], None);
    NotFoundIff(Some(r), [s], Some(v));
  }
}
