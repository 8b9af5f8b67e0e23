/** The part of Node's posix `path` module that the dispatcher relies on:
    `path.join` of two strings and `path.normalize`.  Strings are split on
    `/`, empty and `.` segments are dropped, and the rooted / trailing-slash
    shape of the input is kept, as Node's posix implementation does.
    Resolution of `..` segments is not modelled (a `..` is kept as an
    ordinary segment). */
module NodePath {

  /** A piece that normalisation keeps: not empty, not `.`, no separator. */
  predicate Piece(s: string) {
    s != "" && s != "." && '/' !in s
  }

  predicate AllPieces(parts: seq<string>) {
    forall i :: 0 <= i < |parts| ==> Piece(parts[i])
  }

  /** A plain path segment: a kept piece that is not `..` either, so
      Node's own normalisation, which resolves `..`, leaves it alone too. */
  predicate Segment(s: string) {
    Piece(s) && s != ".."
  }

  predicate AllSegments(parts: seq<string>) {
    forall i :: 0 <= i < |parts| ==> Segment(parts[i])
  }

  /** `parts.join('/')` as JavaScript's Array.prototype.join computes it. */
  function Join(parts: seq<string>): string
  {
    if |parts| == 0 then ""
    else if |parts| == 1 then parts[0]
    else parts[0] + "/" + Join(parts[1..])
  }

  /** `s.split('/')`: the pieces between separators, always at least one. */
  function Split(s: string): (parts: seq<string>)
    ensures |parts| >= 1
    ensures forall i :: 0 <= i < |parts| ==> '/' !in parts[i]
    decreases |s|
  {
    if s == [] then [""]
    else
      var rest := Split(s[1..]);
      if s[0] == '/' then [""] + rest
      else [[s[0]] + rest[0]] + rest[1..]
  }

  /** The segments that survive normalisation: empty and `.` pieces go. */
  function Clean(parts: seq<string>): (kept: seq<string>)
    ensures forall i :: 0 <= i < |kept| ==> kept[i] in parts && kept[i] != "" && kept[i] != "."
    ensures AllPieces(parts) ==> kept == parts
  {
    if parts == [] then []
    else if parts[0] == "" || parts[0] == "." then Clean(parts[1..])
    else [parts[0]] + Clean(parts[1..])
  }

  /** Rebuilds a normalised path from its three parts, choosing `/`, `./`
      or `.` when no segment is left. */
  function Render(rooted: bool, segs: seq<string>, trailing: bool): string
  {
    var body := Join(segs);
    if body == "" then (if rooted then "/" else if trailing then "./" else ".")
    else (if rooted then "/" else "") + body + (if trailing then "/" else "")
  }

  /** `path.normalize(p)`: never empty, and `.` for the empty string. */
  function Normalize(p: string): (r: string)
    ensures r != ""
    ensures p == "" ==> r == "."
    ensures p != "" && p[0] == '/' ==> r[0] == '/'
  {
    if p == "" then "."
    else Render(p[0] == '/', Clean(Split(p)), p[|p| - 1] == '/')
  }

  /** `path.join(a, b)`: the non-empty arguments joined by `/`, then
      normalised; `.` when both are empty. */
  function PathJoin(a: string, b: string): (r: string)
    ensures r != ""
  {
    var joined := if a == "" then b else if b == "" then a else a + "/" + b;
    Normalize(joined)
  }

  // ---------------------------------------------------------------------
  // Split and Join are inverse to each other.

  lemma {:induction false} JoinSplit(s: string)
    ensures Join(Split(s)) == s
    decreases |s|
  {
    if s != [] {
      var rest := Split(s[1..]);
      JoinSplit(s[1..]);
      if s[0] == '/' {
        assert Split(s) == [""] + rest;
        assert s == "" + "/" + s[1..];
      } else {
        var parts := [[s[0]] + rest[0]] + rest[1..];
        assert Split(s) == parts;
        if |rest| == 1 {
          assert Join(parts) == [s[0]] + rest[0];
          assert s == [s[0]] + s[1..];
        } else {
          assert parts[1..] == rest[1..];
          assert Join(rest) == rest[0] + "/" + Join(rest[1..]);
          assert Join(parts) == [s[0]] + rest[0] + "/" + Join(rest[1..]);
          assert s == [s[0]] + s[1..];
        }
      }
    }
  }

  /** Splitting a separator-free prefix glued to `s` extends the first piece. */
  lemma {:induction false} SplitPrefix(a: string, s: string)
    requires '/' !in a
    ensures Split(a + s) == [a + Split(s)[0]] + Split(s)[1..]
    decreases |a|
  {
    if a == [] {
      var parts := Split(s);
      assert a + s == s;
      assert a + parts[0] == parts[0];
      assert parts == [parts[0]] + parts[1..];
    } else {
      SplitPrefix(a[1..], s);
      var rest := Split(a[1..] + s);
      assert (a + s)[1..] == a[1..] + s;
      assert (a + s)[0] == a[0];
      assert Split(a + s) == [[a[0]] + rest[0]] + rest[1..];
      assert [a[0]] + (a[1..] + Split(s)[0]) == a + Split(s)[0];
    }
  }

  lemma {:induction false} SplitJoin(parts: seq<string>)
    requires |parts| >= 1
    requires forall i :: 0 <= i < |parts| ==> '/' !in parts[i]
    ensures Split(Join(parts)) == parts
  {
    if |parts| == 1 {
      SplitPrefix(parts[0], "");
      assert parts[0] + "" == parts[0];
    } else {
      var tail := "/" + Join(parts[1..]);
      SplitJoin(parts[1..]);
      assert tail[1..] == Join(parts[1..]);
      assert Split(tail) == [""] + parts[1..];
      SplitPrefix(parts[0], tail);
      assert parts[0] + "/" + Join(parts[1..]) == parts[0] + tail;
      assert parts[0] + "" == parts[0];
    }
  }

  // ---------------------------------------------------------------------
  // Shape facts about Join.

  lemma {:induction false} JoinSnoc(parts: seq<string>, last: string)
    requires |parts| >= 1
    ensures Join(parts + [last]) == Join(parts) + "/" + last
  {
    if |parts| > 1 {
      JoinSnoc(parts[1..], last);
      assert (parts + [last])[1..] == parts[1..] + [last];
    }
  }

  /** A character of a joined path is a separator or comes from a part. */
  lemma {:induction false} JoinChars(parts: seq<string>, c: char)
    requires c in Join(parts)
    ensures c == '/' || exists i :: 0 <= i < |parts| && c in parts[i]
  {
    if |parts| > 1 {
      var rest := Join(parts[1..]);
      if c !in parts[0] && c != '/' {
        assert c in rest;
        JoinChars(parts[1..], c);
        var i :| 0 <= i < |parts[1..]| && c in parts[1..][i];
        assert c in parts[i + 1];
      }
    }
  }

  lemma {:induction false} JoinHasSeparator(parts: seq<string>)
    requires |parts| >= 2
    ensures '/' in Join(parts)
  {
    assert Join(parts)[|parts[0]|] == '/';
  }

  lemma {:induction false} JoinEmpty(parts: seq<string>)
    requires forall i :: 0 <= i < |parts| ==> parts[i] != ""
    ensures Join(parts) == "" <==> parts == []
  {
    if |parts| >= 1 {
      assert Join(parts)[0] == parts[0][0];
    }
  }

  lemma {:induction false} JoinFirst(parts: seq<string>)
    requires |parts| >= 1 && parts[0] != ""
    ensures Join(parts) != "" && Join(parts)[0] == parts[0][0]
  {
    if |parts| > 1 {
      var rest := "/" + Join(parts[1..]);
      assert Join(parts) == parts[0] + rest;
      assert (parts[0] + rest)[0] == parts[0][0];
    }
  }

  lemma {:induction false} JoinLast(parts: seq<string>)
    requires |parts| >= 1 && parts[|parts| - 1] != ""
    ensures Join(parts) != ""
    ensures Join(parts)[|Join(parts)| - 1] == parts[|parts| - 1][|parts[|parts| - 1]| - 1]
  {
    if |parts| > 1 {
      var tail := parts[1..];
      assert tail[|tail| - 1] == parts[|parts| - 1];
      JoinLast(tail);
      var j := Join(tail);
      var front := parts[0] + "/";
      assert Join(parts) == front + j;
      assert (front + j)[|front + j| - 1] == j[|j| - 1];
    }
  }

  lemma JoinFirstLast(parts: seq<string>)
    requires |parts| >= 1 && AllPieces(parts)
    ensures Join(parts) != ""
    ensures Join(parts)[0] == parts[0][0]
    ensures Join(parts)[|Join(parts)| - 1] == parts[|parts| - 1][|parts[|parts| - 1]| - 1]
  {
    assert Piece(parts[0]) && Piece(parts[|parts| - 1]);
    JoinFirst(parts);
    JoinLast(parts);
  }

  // ---------------------------------------------------------------------
  // Normalisation leaves well-formed paths alone and is idempotent.

  lemma {:induction false} CleanConcat(a: seq<string>, b: seq<string>)
    ensures Clean(a + b) == Clean(a) + Clean(b)
  {
    if a == [] {
      assert a + b == b;
    } else {
      var ab := a + b;
      assert ab[0] == a[0] && ab[1..] == a[1..] + b;
      CleanConcat(a[1..], b);
      var rest := Clean(a[1..]);
      if a[0] == "" || a[0] == "." {
        assert Clean(ab) == Clean(ab[1..]);
      } else {
        assert Clean(ab) == [a[0]] + Clean(ab[1..]);
        assert [a[0]] + (rest + Clean(b)) == ([a[0]] + rest) + Clean(b);
      }
    }
  }

  lemma {:induction false} SplitSnocSlash(s: string)
    ensures Split(s + "/") == Split(s) + [""]
    decreases |s|
  {
    if s == [] {
      assert Split("/") == [""] + Split("");
    } else {
      SplitSnocSlash(s[1..]);
      assert (s + "/")[1..] == s[1..] + "/";
    }
  }

  /** The pieces of a rooted or relative path of plain segments that
      survive normalisation are those segments. */
  lemma CleanSplitOfJoin(rooted: bool, segs: seq<string>)
    requires |segs| >= 1 && AllPieces(segs)
    ensures Clean(Split((if rooted then "/" else "") + Join(segs))) == segs
  {
    var body := Join(segs);
    SplitJoin(segs);
    if rooted {
      var mid := "/" + body;
      assert mid[0] == '/' && mid[1..] == body;
      assert Split(mid) == [""] + segs;
      CleanConcat([""], segs);
    } else {
      assert "" + body == body;
    }
  }

  /** A path rendered from plain segments normalises to itself. */
  lemma RenderIsNormal(rooted: bool, segs: seq<string>, trailing: bool)
    requires |segs| >= 1 && AllPieces(segs)
    ensures Normalize(Render(rooted, segs, trailing)) == Render(rooted, segs, trailing)
  {
    var body := Join(segs);
    JoinFirstLast(segs);
    var mid := (if rooted then "/" else "") + body;
    var r := mid + (if trailing then "/" else "");
    assert Render(rooted, segs, trailing) == r;
    CleanSplitOfJoin(rooted, segs);
    if trailing {
      SplitSnocSlash(mid);
      CleanConcat(Split(mid), [""]);
      assert Clean(Split(r)) == segs;
      assert r[|r| - 1] == '/';
    } else {
      assert r == mid;
      assert r[|r| - 1] == body[|body| - 1];
    }
    assert r[0] == '/' <==> rooted;
  }

  /** A rooted or relative path made of plain segments is already normal. */
  lemma NormalizeSegments(segs: seq<string>)
    requires |segs| >= 1 && AllSegments(segs)
    ensures Normalize(Join(segs)) == Join(segs)
    ensures Normalize("/" + Join(segs)) == "/" + Join(segs)
  {
    assert AllPieces(segs);
    JoinFirst(segs);
    var body := Join(segs);
    assert Render(false, segs, false) == body by {
      assert "" + body + "" == body;
    }
    assert Render(true, segs, false) == "/" + body by {
      assert "/" + body + "" == "/" + body;
    }
    RenderIsNormal(false, segs, false);
    RenderIsNormal(true, segs, false);
  }

  /** The three paths with no segment left are normal too. */
  lemma EmptyRendersAreNormal()
    ensures Normalize("/") == "/" && Normalize("./") == "./" && Normalize(".") == "."
  {
    assert Split("/") == [""] + Split("");
    assert "./"[1..] == "/";
    assert Split("./") == [[ '.' ] + Split("/")[0]] + Split("/")[1..];
    assert "."[1..] == "";
    assert Split(".") == [[ '.' ] + Split("")[0]] + Split("")[1..];
  }

  /** Normalising twice gives the same path as normalising once. */
  lemma NormalizeIdempotent(p: string)
    ensures Normalize(Normalize(p)) == Normalize(p)
  {
    EmptyRendersAreNormal();
    if p != "" {
      var segs := Clean(Split(p));
      JoinEmpty(segs);
      if segs != [] {
        forall i | 0 <= i < |segs| ensures Piece(segs[i]) {
          assert segs[i] in Split(p);
        }
        RenderIsNormal(p[0] == '/', segs, p[|p| - 1] == '/');
      }
    }
  }
}
