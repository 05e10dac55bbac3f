/** The order sort.Strings puts option names in, and the one sorted list of a set. */
module Ordering {

  predicate Less(a: string, b: string)
  {
    if b == "" then false
    else if a == "" then true
    else if a[0] == b[0] then Less(a[1..], b[1..])
    else a[0] < b[0]
  }

  lemma {:induction false} LessIsTotal(a: string, b: string)
    ensures !Less(a, a)
    ensures Less(a, b) || Less(b, a) || a == b
    ensures !(Less(a, b) && Less(b, a))
  {
    if a != "" && b != "" {
      LessIsTotal(a[1..], b[1..]);
      assert a == [a[0]] + a[1..] && b == [b[0]] + b[1..];
    } else if a != "" {
      LessIsTotal(a[1..], b);
    }
  }

  lemma {:induction false} LessIsTransitive(a: string, b: string, c: string)
    requires Less(a, b) && Less(b, c)
    ensures Less(a, c)
  {
    if a != "" && a[0] == b[0] == c[0] {
      LessIsTransitive(a[1..], b[1..], c[1..]);
    }
  }

  /** The order of a dictionary: the first difference decides, and a prefix comes first. */
  lemma {:induction false} LessIsLexicographic(p: string, c: char, x: string, d: char, y: string)
    ensures Less(p, p + [c] + x)
    ensures c < d ==> Less(p + [c] + x, p + [d] + y)
  {
    var a, b := p + [c] + x, p + [d] + y;
    if p != "" {
      LessIsLexicographic(p[1..], c, x, d, y);
      assert a[1..] == p[1..] + [c] + x && b[1..] == p[1..] + [d] + y;
    }
  }

  predicate Sorted(keys: seq<string>)
  {
    forall i, j :: 0 <= i < j < |keys| ==> Less(keys[i], keys[j])
  }

  function Elements(keys: seq<string>): set<string>
  {
    set k | k in keys
  }

  lemma HasElements(keys: seq<string>)
    requires keys != []
    ensures Elements(keys) != {}
  {
    assert keys[0] in Elements(keys);
  }

  /** A set has at most one sorted list. */
  lemma {:induction false} SortedIsUnique(a: seq<string>, b: seq<string>)
    requires Sorted(a) && Sorted(b) && Elements(a) == Elements(b)
    ensures a == b
    decreases |a|
  {
    if a != [] {
      HasElements(a);
    }
    if b != [] {
      HasElements(b);
    }
    if a != [] {
      FirstIsLeast(a, b);
      FirstIsLeast(b, a);
      LessIsTotal(a[0], b[0]);
      TailElements(a);
      TailElements(b);
      SortedIsUnique(a[1..], b[1..]);
      assert a == [a[0]] + a[1..] && b == [b[0]] + b[1..];
    }
  }

  lemma FirstIsLeast(a: seq<string>, b: seq<string>)
    requires Sorted(a) && a != [] && b != [] && Elements(a) == Elements(b)
    ensures !Less(b[0], a[0])
  {
    assert b[0] in Elements(b);
    var i :| 0 <= i < |a| && a[i] == b[0];
    LessIsTotal(b[0], a[0]);
  }

  lemma TailElements(a: seq<string>)
    requires Sorted(a) && a != []
    ensures Sorted(a[1..]) && Elements(a[1..]) == Elements(a) - {a[0]}
  {
    LessIsTotal(a[0], a[0]);
    assert a == [a[0]] + a[1..];
  }

  function Insert(k: string, keys: seq<string>): seq<string>
  {
    if keys == [] || Less(k, keys[0]) then [k] + keys else [keys[0]] + Insert(k, keys[1..])
  }

  lemma {:induction false} InsertElements(k: string, keys: seq<string>)
    ensures Elements(Insert(k, keys)) == Elements(keys) + {k}
  {
    if keys != [] && !Less(k, keys[0]) {
      InsertElements(k, keys[1..]);
      assert keys == [keys[0]] + keys[1..];
      assert Insert(k, keys) == [keys[0]] + Insert(k, keys[1..]);
      assert Elements(Insert(k, keys)) == {keys[0]} + Elements(Insert(k, keys[1..]));
    }
  }

  lemma {:induction false} InsertKeepsSorted(k: string, keys: seq<string>)
    requires Sorted(keys) && k !in keys
    ensures Sorted(Insert(k, keys))
  {
    if keys == [] || Less(k, keys[0]) {
      forall i | 0 < i < |keys|
        ensures Less(k, keys[i])
      {
        LessIsTransitive(k, keys[0], keys[i]);
      }
    } else {
      InsertKeepsSorted(k, keys[1..]);
      InsertElements(k, keys[1..]);
      LessIsTotal(k, keys[0]);
      forall x | x in Insert(k, keys[1..])
        ensures Less(keys[0], x)
      {
        assert x in Elements(keys[1..]) + {k};
      }
    }
  }

  /** The sorted list of a set. */
  ghost function SortedKeys(s: set<string>): (keys: seq<string>)
    ensures Sorted(keys) && Elements(keys) == s
  {
    if s == {} then []
    else
      var k :| k in s;
      var rest := SortedKeys(s - {k});
      assert k !in Elements(rest);
      InsertKeepsSorted(k, rest);
      InsertElements(k, rest);
      Insert(k, rest)
  }

  /** The keys of a map, collected in any order and sorted. */
  method SortKeys(s: set<string>) returns (keys: seq<string>)
    ensures keys == SortedKeys(s)
  {
    keys := [];
    var rest := s;
    while rest != {}
      invariant rest <= s && Sorted(keys) && Elements(keys) == s - rest
      decreases rest
    {
      var k :| k in rest;
      assert k !in Elements(keys);
      InsertKeepsSorted(k, keys);
      InsertElements(k, keys);
      keys, rest := Insert(k, keys), rest - {k};
    }
    SortedIsUnique(keys, SortedKeys(s));
  }
}
