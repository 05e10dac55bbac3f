/** filepath.Clean and filepath.Join of the Go standard library on Unix. */
module Paths {
  import opened Text

  /** The elements that remain after "." and empty elements are dropped and
      each ".." removes the element before it. */
  function Resolve(parts: seq<string>, rooted: bool, done: seq<string>): seq<string>
    decreases |parts|
  {
    if parts == [] then done
    else if parts[0] == "" || parts[0] == "." then Resolve(parts[1..], rooted, done)
    else if parts[0] == ".." then
      if done != [] && done[|done| - 1] != ".." then Resolve(parts[1..], rooted, done[..|done| - 1])
      else if rooted then Resolve(parts[1..], rooted, done)
      else Resolve(parts[1..], rooted, done + [".."])
    else Resolve(parts[1..], rooted, done + [parts[0]])
  }

  function Clean(path: string): string
  {
    var rooted := path != "" && path[0] == '/';
    var out := (if rooted then "/" else "") + Join(Resolve(Split(path, '/'), rooted, []), '/');
    if out == "" then "." else out
  }

  /** filepath.Join starts at the first non-empty element. */
  function JoinPath(elems: seq<string>): string
  {
    if elems == [] then ""
    else if elems[0] == "" then JoinPath(elems[1..])
    else Clean(Join(elems, '/'))
  }

  /** The path elements left when repeated slashes are ignored. */
  function Segments(parts: seq<string>): seq<string>
  {
    if parts == [] then []
    else if parts[0] == "" then Segments(parts[1..])
    else [parts[0]] + Segments(parts[1..])
  }

  /** Resolution sees only the non-empty elements. */
  lemma {:induction false} ResolveIgnoresEmpty(parts: seq<string>, rooted: bool, done: seq<string>)
    ensures Resolve(parts, rooted, done) == Resolve(Segments(parts), rooted, done)
    decreases |parts|
  {
    if parts != [] {
      if parts[0] == "" {
        ResolveIgnoresEmpty(parts[1..], rooted, done);
      } else {
        assert Segments(parts)[1..] == Segments(parts[1..]);
        if parts[0] == "." {
          ResolveIgnoresEmpty(parts[1..], rooted, done);
        } else if parts[0] == ".." {
          if done != [] && done[|done| - 1] != ".." {
            ResolveIgnoresEmpty(parts[1..], rooted, done[..|done| - 1]);
          } else if rooted {
            ResolveIgnoresEmpty(parts[1..], rooted, done);
          } else {
            ResolveIgnoresEmpty(parts[1..], rooted, done + [".."]);
          }
        } else {
          ResolveIgnoresEmpty(parts[1..], rooted, done + [parts[0]]);
        }
      }
    }
  }

  lemma {:induction false} SegmentsConcat(a: seq<string>, b: seq<string>)
    ensures Segments(a + b) == Segments(a) + Segments(b)
  {
    if a == [] {
      assert a + b == b;
    } else {
      SegmentsConcat(a[1..], b);
      assert (a + b)[1..] == a[1..] + b;
      if a[0] != "" {
        ConsConcat(a[0], Segments(a[1..]), Segments(b));
      }
    }
  }

  /** An element that names something. */
  predicate Named(x: string)
  {
    x != "" && x != "." && x != ".."
  }

  /** Elements that name something are kept, in order. */
  lemma {:induction false} ResolveKeepsNames(parts: seq<string>, rooted: bool, done: seq<string>)
    requires forall i :: 0 <= i < |parts| ==> parts[i] == "" || Named(parts[i])
    ensures Resolve(parts, rooted, done) == done + Segments(parts)
    decreases |parts|
  {
    if parts == [] {
      assert done + Segments(parts) == done;
    } else if parts[0] == "" {
      ResolveKeepsNames(parts[1..], rooted, done);
    } else {
      ResolveKeepsNames(parts[1..], rooted, done + [parts[0]]);
      assert done + ([parts[0]] + Segments(parts[1..])) == done + [parts[0]] + Segments(parts[1..]);
    }
  }

  /** "." says nothing. */
  lemma {:induction false} DotIsNothing(a: seq<string>, b: seq<string>, rooted: bool, done: seq<string>)
    ensures Resolve(a + ["."] + b, rooted, done) == Resolve(a + b, rooted, done)
    decreases |a|
  {
    var l, r := a + ["."] + b, a + b;
    if a == [] {
      assert l[1..] == b && r == b;
    } else {
      assert l[1..] == a[1..] + ["."] + b && r[1..] == a[1..] + b;
      DotIsNothing(a[1..], b, rooted, Next(a[0], rooted, done));
    }
  }

  /** ".." takes the element before it away. */
  lemma {:induction false} DotDotTakesBack(a: seq<string>, x: string, b: seq<string>, rooted: bool, done: seq<string>)
    requires Named(x)
    ensures Resolve(a + [x, ".."] + b, rooted, done) == Resolve(a + b, rooted, done)
    decreases |a|
  {
    var l, r := a + [x, ".."] + b, a + b;
    if a == [] {
      assert l[1..] == [".."] + b && ([".."] + b)[1..] == b && r == b;
      assert (done + [x])[..|done|] == done;
    } else {
      assert l[1..] == a[1..] + [x, ".."] + b && r[1..] == a[1..] + b;
      DotDotTakesBack(a[1..], x, b, rooted, Next(a[0], rooted, done));
    }
  }

  /** At the root ".." leads nowhere; in a relative path it stays. */
  lemma DotDotAtTheStart(b: seq<string>)
    ensures Resolve([".."] + b, true, []) == Resolve(b, true, [])
    ensures Resolve([".."] + b, false, []) == Resolve(b, false, [".."])
  {
    assert ([".."] + b)[1..] == b;
    assert [] + [".."] == [".."];
  }

  /** What one element makes of the elements before it. */
  function Next(x: string, rooted: bool, done: seq<string>): seq<string>
  {
    if x == "" || x == "." then done
    else if x == ".." then
      if done != [] && done[|done| - 1] != ".." then done[..|done| - 1]
      else if rooted then done
      else done + [".."]
    else done + [x]
  }

  lemma ConsConcat(x: string, p: seq<string>, q: seq<string>)
    ensures [x] + (p + q) == ([x] + p) + q
  {
  }
}
