/** String operations of the Go standard library that the driver builds its
    identifiers and mount options from, with the laws the other modules need. */
module Text {

  /** A list of fields with a character put before the first. */
  function GrowFirst(x: char, parts: seq<string>): seq<string>
    requires parts != []
  {
    [[x] + parts[0]] + parts[1..]
  }

  /** strings.Split with a one-character separator: never empty. */
  function Split(s: string, c: char): (parts: seq<string>)
    ensures |parts| >= 1
  {
    if s == [] then [""]
    else if s[0] == c then [""] + Split(s[1..], c)
    else GrowFirst(s[0], Split(s[1..], c))
  }

  /** strings.Join with a one-character separator. */
  function Join(parts: seq<string>, c: char): string
  {
    if |parts| == 0 then ""
    else if |parts| == 1 then parts[0]
    else parts[0] + [c] + Join(parts[1..], c)
  }

  /** A string without the separator is a single field. */
  lemma {:induction false} SplitWithoutSeparator(s: string, c: char)
    requires c !in s
    ensures Split(s, c) == [s]
  {
    if s != [] {
      SplitWithoutSeparator(s[1..], c);
      assert [s[0]] + s[1..] == s;
    }
  }

  lemma GrowFirstConcat(x: char, p: seq<string>, q: seq<string>)
    requires p != []
    ensures GrowFirst(x, p + q) == GrowFirst(x, p) + q
  {
  }

  lemma EmptyFieldConcat(p: seq<string>, q: seq<string>)
    ensures [""] + (p + q) == ([""] + p) + q
  {
  }

  /** Splitting distributes over a separator placed between two strings. */
  lemma {:induction false} SplitAround(a: string, c: char, b: string)
    ensures Split(a + [c] + b, c) == Split(a, c) + Split(b, c)
  {
    if a == [] {
      assert (a + [c] + b)[1..] == b;
    } else {
      SplitAround(a[1..], c, b);
      SplitAroundStep(a, c, b, Split(a[1..], c), Split(b, c));
    }
  }

  lemma SplitAroundStep(a: string, c: char, b: string, p: seq<string>, q: seq<string>)
    requires a != [] && p == Split(a[1..], c) && p + q == Split(a[1..] + [c] + b, c)
    ensures Split(a + [c] + b, c) == Split(a, c) + q
  {
    assert (a + [c] + b)[1..] == a[1..] + [c] + b;
    if a[0] == c {
      EmptyFieldConcat(p, q);
    } else {
      GrowFirstConcat(a[0], p, q);
    }
  }

  /** No field of a split holds the separator. */
  lemma {:induction false} FieldsHoldNoSeparator(s: string, c: char)
    ensures forall i :: 0 <= i < |Split(s, c)| ==> c !in Split(s, c)[i]
  {
    if s != [] {
      FieldsHoldNoSeparator(s[1..], c);
    }
  }

  lemma JoinCons(x: string, parts: seq<string>, c: char)
    requires parts != []
    ensures Join([x] + parts, c) == x + [c] + Join(parts, c)
  {
    assert ([x] + parts)[1..] == parts;
  }

  /** A character put before the first field comes out before the whole text. */
  lemma JoinGrowsFirst(x: char, parts: seq<string>, c: char)
    requires parts != []
    ensures Join(GrowFirst(x, parts), c) == [x] + Join(parts, c)
  {
    if |parts| > 1 {
      JoinCons([x] + parts[0], parts[1..], c);
      assert [x] + parts[0] + [c] + Join(parts[1..], c) == [x] + (parts[0] + [c] + Join(parts[1..], c));
    }
  }

  /** A string with the separator has several fields. */
  lemma {:induction false} SplitsAtSeparator(s: string, c: char)
    requires c in s
    ensures |Split(s, c)| >= 2
  {
    if s[0] != c {
      SplitsAtSeparator(s[1..], c);
    }
  }

  /** Every character of a field is a character of the string. */
  lemma {:induction false} FieldsOf(s: string, c: char)
    ensures forall i, x :: 0 <= i < |Split(s, c)| && x in Split(s, c)[i] ==> x in s
  {
    if s != [] {
      FieldsOf(s[1..], c);
      var rest := Split(s[1..], c);
      assert forall y :: y in s[1..] ==> y in s;
      forall i, x | 0 <= i < |Split(s, c)| && x in Split(s, c)[i]
        ensures x in s
      {
        if s[0] == c {
          assert Split(s, c)[i] == if i == 0 then "" else rest[i - 1];
        } else if i > 0 {
          assert Split(s, c)[i] == rest[i];
        } else {
          assert Split(s, c)[0] == [s[0]] + rest[0];
        }
      }
    }
  }

  /** Join undoes Split on every string. */
  lemma {:induction false} JoinSplit(s: string, c: char)
    ensures Join(Split(s, c), c) == s
  {
    if s != [] {
      var rest := Split(s[1..], c);
      JoinSplit(s[1..], c);
      JoinCons("", rest, c);
      JoinGrowsFirst(s[0], rest, c);
      assert s == [s[0]] + s[1..];
    }
  }

  /** Split undoes Join on every non-empty list of separator-free fields. */
  lemma {:induction false} SplitJoin(parts: seq<string>, c: char)
    requires |parts| >= 1
    requires forall i :: 0 <= i < |parts| ==> c !in parts[i]
    ensures Split(Join(parts, c), c) == parts
  {
    SplitWithoutSeparator(parts[0], c);
    if |parts| > 1 {
      SplitJoin(parts[1..], c);
      SplitAround(parts[0], c, Join(parts[1..], c));
      assert [parts[0]] + parts[1..] == parts;
    } else {
      assert parts == [parts[0]];
    }
  }

  /** unicode.IsSpace, the class strings.TrimSpace removes. */
  predicate IsSpace(c: char)
  {
    || '\t' <= c <= '\r' || c == ' ' || c == '\U{85}' || c == '\U{A0}' || c == '\U{1680}'
    || '\U{2000}' <= c <= '\U{200A}' || c == '\U{2028}' || c == '\U{2029}' || c == '\U{202F}'
    || c == '\U{205F}' || c == '\U{3000}'
  }

  function TrimLeft(s: string): (t: string)
    ensures |t| <= |s|
  {
    if s != [] && IsSpace(s[0]) then TrimLeft(s[1..]) else s
  }

  function TrimRight(s: string): string
  {
    if s != [] && IsSpace(s[|s| - 1]) then TrimRight(s[..|s| - 1]) else s
  }

  /** strings.TrimSpace */
  function TrimSpace(s: string): string
  {
    TrimRight(TrimLeft(s))
  }

  lemma {:induction false} TrimKeeps(s: string, c: char)
    requires c !in s
    ensures c !in TrimLeft(s) && c !in TrimRight(s)
  {
    if s != "" {
      TrimKeeps(s[1..], c);
      TrimKeeps(s[..|s| - 1], c);
    }
  }

  /** Every character is a space. */
  predicate Blank(s: string)
  {
    forall i :: 0 <= i < |s| ==> IsSpace(s[i])
  }

  lemma {:induction false} TrimLeftCutsBlanks(s: string) returns (left: string)
    ensures s == left + TrimLeft(s) && Blank(left)
    ensures TrimLeft(s) != "" ==> !IsSpace(TrimLeft(s)[0])
  {
    left := "";
    if s != "" && IsSpace(s[0]) {
      var rest := TrimLeftCutsBlanks(s[1..]);
      left := [s[0]] + rest;
      assert s == [s[0]] + s[1..];
    }
  }

  lemma {:induction false} TrimRightCutsBlanks(s: string) returns (right: string)
    ensures s == TrimRight(s) + right && Blank(right)
    ensures TrimRight(s) != "" ==> !IsSpace(TrimRight(s)[|TrimRight(s)| - 1])
  {
    right := "";
    if s != "" && IsSpace(s[|s| - 1]) {
      var rest := TrimRightCutsBlanks(s[..|s| - 1]);
      right := rest + [s[|s| - 1]];
      assert s == s[..|s| - 1] + [s[|s| - 1]];
    }
  }

  /** Trimming cuts blanks off both ends, all of them and nothing else. */
  lemma TrimSpaceCutsBlanks(s: string) returns (left: string, right: string)
    ensures s == left + TrimSpace(s) + right && Blank(left) && Blank(right)
    ensures TrimSpace(s) != "" ==> !IsSpace(TrimSpace(s)[0]) && !IsSpace(TrimSpace(s)[|TrimSpace(s)| - 1])
  {
    left := TrimLeftCutsBlanks(s);
    right := TrimRightCutsBlanks(TrimLeft(s));
    assert TrimSpace(s) != "" ==> TrimSpace(s)[0] == TrimLeft(s)[0];
  }

  /** Text that neither starts nor ends with a space stays. */
  lemma TrimNothing(s: string)
    requires s != "" && !IsSpace(s[0]) && !IsSpace(s[|s| - 1])
    ensures TrimSpace(s) == s
  {
  }

  /** What is trimmed is shorter. */
  lemma {:induction false} TrimShortens(s: string)
    ensures |TrimLeft(s)| <= |s| && (|TrimLeft(s)| == |s| ==> TrimLeft(s) == s)
    ensures |TrimRight(s)| <= |s| && (|TrimRight(s)| == |s| ==> TrimRight(s) == s)
  {
    if s != "" {
      TrimShortens(s[1..]);
      TrimShortens(s[..|s| - 1]);
    }
  }

  /** Trimming on the left stops at the first character that is no space. */
  lemma {:induction false} TrimLeftBefore(s: string, rest: string)
    requires rest != "" && !IsSpace(rest[0])
    ensures TrimLeft(s + rest) == TrimLeft(s) + rest
  {
    if s == "" {
      assert s + rest == rest;
    } else {
      TrimLeftBefore(s[1..], rest);
      assert (s + rest)[1..] == s[1..] + rest;
    }
  }

  lemma {:induction false} TrimRightAfter(front: string, s: string)
    requires front != "" && !IsSpace(front[|front| - 1])
    ensures TrimRight(front + s) == front + TrimRight(s)
    decreases |s|
  {
    if s == "" {
      assert front + s == front;
    } else {
      TrimRightAfter(front, s[..|s| - 1]);
      assert (front + s)[..|front + s| - 1] == front + s[..|s| - 1];
    }
  }
}
