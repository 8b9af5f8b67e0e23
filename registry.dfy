/** The registry builder (`assignHandlers` with its recursive helper
    `getHandlers`).  The scanned directory is an input tree whose entries
    are already classified: a `Module` is an entry that the module loader
    resolves (a leaf), a `Folder` is one it does not resolve (a branch,
    listed and walked).  Every leaf that survives the name filter is
    recorded in one shared dictionary under its path relative to the root. */
module Registry {
  import opened Wrappers
  import opened NodePath

  /** Identity of a loaded handler unit (the module it was loaded from). */
  type HandlerId = nat

  /** The value `require` returns for a leaf.  The resolver treats a null
      or undefined export and an Error object as "no match"; every other
      export is something it invokes. */
  datatype Export = Invocable(id: HandlerId) | NullExport | ErrorExport

  /** A name as a directory listing returns it: never empty, never `.` or
      `..`, never containing the separator. */
  type FileName = s: string | s != "" && s != "." && s != ".." && '/' !in s witness "index"

  datatype Child = Child(name: FileName, node: Entry)

  datatype Entry = Module(exported: Export) | Folder(listing: Listing)

  /** The listing of a directory, in listing order, or a directory that
      cannot be listed (listing it throws). */
  datatype Listing = Unreadable | Entries(children: seq<Child>)

  datatype BuildError = UnreadableDirectory(rel: string)

  /** The shared dictionary: registry key to loaded export. */
  type Handlers = map<string, Export>

  /** The name filter: entries whose name holds `.` or `_` are skipped. */
  predicate Visible(name: string) {
    '.' !in name && '_' !in name
  }

  function Count(l: Listing): nat {
    if l.Entries? then |l.children| else 0
  }

  /** `dir.replace(basePath, '')` for the sub-directory `name` of a
      directory whose relative path is `rel`. */
  function ChildRel(rel: string, name: string): string {
    rel + "/" + name
  }

  /** The key a leaf named `name` is stored under: `path.join(rel, name)`. */
  function LeafKey(rel: string, name: string): string {
    PathJoin(rel, name)
  }

  /** The registrations `getHandlers` makes for the first `n` entries of a
      listing, in the order it makes them, or the error that stops it. */
  function LeafList(rel: string, l: Listing, n: nat): Result<seq<(string, Export)>, BuildError>
    requires n <= Count(l)
    decreases l, n
  {
    if l.Unreadable? then Failure(UnreadableDirectory(rel))
    else if n == 0 then Success([])
    else
      match LeafList(rel, l, n - 1)
      case Failure(err) => Failure(err)
      case Success(done) =>
        var c := l.children[n - 1];
        if !Visible(c.name) then Success(done)
        else
          match c.node
          case Module(e) => Success(done + [(LeafKey(rel, c.name), e)])
          case Folder(sub) =>
            match LeafList(ChildRel(rel, c.name), sub, Count(sub))
            case Failure(err) => Failure(err)
            case Success(more) => Success(done + more)
  }

  /** Writing registrations into a dictionary one after the other. */
  function InsertAll(acc: Handlers, ps: seq<(string, Export)>): (r: Handlers)
    ensures r.Keys == acc.Keys + set i | 0 <= i < |ps| :: ps[i].0
    decreases |ps|
  {
    if ps == [] then acc
    else
      var last := ps[|ps| - 1];
      assert forall i :: 0 <= i < |ps| - 1 ==> ps[..|ps| - 1][i] == ps[i];
      InsertAll(acc, ps[..|ps| - 1])[last.0 := last.1]
  }

  /** The registry `assignHandlers(basePath)` returns for the listing of
      `basePath`, or the error that aborts the scan. */
  function Build(root: Listing): Result<Handlers, BuildError>
  {
    match LeafList("", root, Count(root))
    case Failure(err) => Failure(err)
    case Success(ps) => Success(InsertAll(map[], ps))
  }

  /** The object that owns the shared `handlers` dictionary while the
      directory tree is walked. */
  class HandlerScan {
    var handlers: Handlers

    constructor ()
      ensures handlers == map[]
    {
      handlers := map[];
    }

    /** `getHandlers(dir)`: list `dir`, skip filtered names, record each
        leaf and recurse into each branch. */
    method GetHandlers(rel: string, dir: Listing) returns (outcome: Result<(), BuildError>)
      modifies this
      decreases dir
      ensures outcome.Success? <==> LeafList(rel, dir, Count(dir)).Success?
      ensures outcome.Failure? ==> outcome.error == LeafList(rel, dir, Count(dir)).error
      ensures outcome.Success? ==> handlers == InsertAll(old(handlers), LeafList(rel, dir, Count(dir)).value)
    {
      if dir.Unreadable? {
        return Failure(UnreadableDirectory(rel));
      }
      var i := 0;
      while i < |dir.children|
        invariant 0 <= i <= |dir.children|
        invariant LeafList(rel, dir, i).Success?
        invariant handlers == InsertAll(old(handlers), LeafList(rel, dir, i).value)
      {
        var c := dir.children[i];
        if Visible(c.name) {
          match c.node
          case Module(e) =>
            handlers := handlers[LeafKey(rel, c.name) := e];
          case Folder(sub) =>
            var nested := GetHandlers(ChildRel(rel, c.name), sub);
            if nested.Failure? {
              LeafListFailureSticks(rel, dir, i + 1, |dir.children|);
              return nested;
            }
            InsertAllConcat(old(handlers), LeafList(rel, dir, i).value,
                            LeafList(ChildRel(rel, c.name), sub, Count(sub)).value);
        }
        i := i + 1;
      }
      return Success(());
    }
  }

  /** `assignHandlers(basePath)`: a fresh dictionary filled by one walk. */
  method AssignHandlers(root: Listing) returns (r: Result<Handlers, BuildError>)
    ensures r == Build(root)
  {
    var scan := new HandlerScan();
    var outcome := scan.GetHandlers("", root);
    if outcome.Success? {
      r := Success(scan.handlers);
    } else {
      r := Failure(outcome.error);
    }
  }

  /** Once the walk has failed, it stays failed with the same error. */
  lemma {:induction false} LeafListFailureSticks(rel: string, l: Listing, m: nat, n: nat)
    requires m <= n <= Count(l)
    requires LeafList(rel, l, m).Failure?
    ensures LeafList(rel, l, n) == LeafList(rel, l, m)
    decreases n
  {
    if m < n {
      LeafListFailureSticks(rel, l, m, n - 1);
    }
  }

  // ---------------------------------------------------------------------
  // Last write wins.

  lemma {:induction false} InsertAllConcat(acc: Handlers, a: seq<(string, Export)>, b: seq<(string, Export)>)
    ensures InsertAll(acc, a + b) == InsertAll(InsertAll(acc, a), b)
    decreases |b|
  {
    if b == [] {
      assert a + b == a;
    } else {
      InsertAllConcat(acc, a, b[..|b| - 1]);
      assert (a + b)[..|a + b| - 1] == a + b[..|b| - 1];
      assert (a + b)[|a + b| - 1] == b[|b| - 1];
    }
  }

  /** The value stored under a key is the one written by the last
      registration with that key. */
  lemma {:induction false} InsertAllLastWins(acc: Handlers, ps: seq<(string, Export)>, j: nat)
    requires j < |ps|
    requires forall j' :: j < j' < |ps| ==> ps[j'].0 != ps[j].0
    ensures InsertAll(acc, ps)[ps[j].0] == ps[j].1
    decreases |ps|
  {
    if j < |ps| - 1 {
      var front := ps[..|ps| - 1];
      assert front[j] == ps[j];
      InsertAllLastWins(acc, front, j);
    }
  }

  /** A key that no registration names keeps its earlier value. */
  lemma {:induction false} InsertAllUntouched(acc: Handlers, ps: seq<(string, Export)>, k: string)
    requires k in acc
    requires forall i :: 0 <= i < |ps| ==> ps[i].0 != k
    ensures InsertAll(acc, ps)[k] == acc[k]
    decreases |ps|
  {
    if ps != [] {
      var front := ps[..|ps| - 1];
      assert forall i :: 0 <= i < |front| ==> front[i] == ps[i];
      InsertAllUntouched(acc, front, k);
    }
  }

  /** Every value in a dictionary filled from empty was written by some
      registration with its key. */
  lemma {:induction false} InsertAllWitness(ps: seq<(string, Export)>, k: string)
    requires k in InsertAll(map[], ps)
    ensures exists j :: 0 <= j < |ps| && ps[j] == (k, InsertAll(map[], ps)[k])
    decreases |ps|
  {
    var front := ps[..|ps| - 1];
    var last := ps[|ps| - 1];
    if last.0 != k {
      InsertAllWitness(front, k);
      var j :| 0 <= j < |front| && front[j] == (k, InsertAll(map[], front)[k]);
      assert ps[j] == front[j];
    } else {
      assert ps[|ps| - 1] == (k, InsertAll(map[], ps)[k]);
    }
  }
}
