/** Mount options as values: merging under mutually exclusive sets, in any iteration
    order, and layering several sources. */
module OptionAlgebra {

  datatype MountOption = MountOption(option: string, value: string)

  /** customOptions: every option is filed under its own name. */
  type Options = m: map<string, MountOption> | forall k :: k in m ==> m[k].option == k

  /** mutuallyExclusiveOptions: sets of names of which at most one may be set. */
  type Exclusives = seq<seq<string>>

  predicate Conflict(ex: Exclusives, a: string, b: string)
  {
    a != b && exists i :: 0 <= i < |ex| && a in ex[i] && b in ex[i]
  }

  /** No two options of one exclusive set. */
  predicate ConflictFree(ex: Exclusives, m: Options)
  {
    forall a, b :: a in m && b in m ==> !Conflict(ex, a, b)
  }

  /** The alternatives of an option in all the sets it belongs to. */
  function Rivals(ex: Exclusives, name: string): set<string>
  {
    set i, j | 0 <= i < |ex| && name in ex[i] && 0 <= j < |ex[i]| && ex[i][j] != name :: ex[i][j]
  }

  lemma RivalsConflict(ex: Exclusives, name: string, d: string)
    ensures d in Rivals(ex, name) <==> Conflict(ex, name, d)
  {
    if Conflict(ex, name, d) {
      var i :| 0 <= i < |ex| && name in ex[i] && d in ex[i];
      var j :| 0 <= j < |ex[i]| && ex[i][j] == d;
      assert ex[i][j] in Rivals(ex, name);
    }
  }

  lemma ConflictIsSymmetric(ex: Exclusives, a: string, b: string)
    ensures Conflict(ex, a, b) <==> Conflict(ex, b, a)
  {
  }

  // ----- Merge, in the order the map iteration happens to take

  function MergeOne(m: Options, o: MountOption, ex: Exclusives): Options
  {
    m[o.option := o] - Rivals(ex, o.option)
  }

  function MergeInOrder(m: Options, order: seq<MountOption>, ex: Exclusives): Options
  {
    if order == [] then m
    else MergeOne(MergeInOrder(m, order[..|order| - 1], ex), order[|order| - 1], ex)
  }

  lemma MergeInOrderOneMore(m: Options, order: seq<MountOption>, o: MountOption, ex: Exclusives)
    ensures MergeInOrder(m, order + [o], ex) == MergeOne(MergeInOrder(m, order, ex), o, ex)
  {
    assert (order + [o])[..|order|] == order;
  }

  /** An iteration over the options: each of them once. */
  predicate Enumerates(order: seq<MountOption>, m: Options)
  {
    && (forall i :: 0 <= i < |order| ==> order[i].option in m && m[order[i].option] == order[i])
    && (forall i, j :: 0 <= i < j < |order| ==> order[i].option != order[j].option)
    && (forall k :: k in m ==> m[k] in order)
  }

  function Names(excludes: seq<string>): set<string>
  {
    set i | 0 <= i < |excludes| :: excludes[i]
  }

  /** MountOptions.Merge for one iteration order over the other options. */
  function Merge(m: Options, order: seq<MountOption>, excludes: seq<string>, ex: Exclusives): Options
  {
    MergeInOrder(m, order, ex) - Names(excludes)
  }

  // ----- what merging should mean

  predicate Displaced(ex: Exclusives, other: Options, k: string)
  {
    exists j :: j in other && Conflict(ex, j, k)
  }

  /** The base options that do not conflict with the others, overridden by them. */
  function Over(base: Options, other: Options, ex: Exclusives): Options
  {
    (map k | k in base && !Displaced(ex, other, k) :: base[k]) + other
  }

  /** Conflicting pairs of the other options are excluded anyway. */
  predicate Unambiguous(ex: Exclusives, other: Options, excludes: seq<string>)
  {
    forall a, b :: a in other && b in other && Conflict(ex, a, b) ==> a in excludes && b in excludes
  }

  /** A key that no option sets or displaces keeps what it held. */
  lemma {:induction false} KeyUntouched(m: Options, order: seq<MountOption>, ex: Exclusives, k: string)
    requires forall o :: o in order ==> o.option != k && !Conflict(ex, o.option, k)
    ensures var r := MergeInOrder(m, order, ex);
            (k in r <==> k in m) && (k in r ==> r[k] == m[k])
  {
    if order != [] {
      KeyUntouched(m, order[..|order| - 1], ex, k);
      RivalsConflict(ex, order[|order| - 1].option, k);
    }
  }

  /** A key that one option sets and none displaces holds that option. */
  lemma {:induction false} KeySet(m: Options, order: seq<MountOption>, ex: Exclusives, set_: MountOption)
    requires set_ in order
    requires forall o :: o in order && o.option == set_.option ==> o == set_
    requires forall o :: o in order ==> !Conflict(ex, o.option, set_.option)
    ensures var r := MergeInOrder(m, order, ex);
            set_.option in r && r[set_.option] == set_
  {
    var front, last := order[..|order| - 1], order[|order| - 1];
    RivalsConflict(ex, last.option, set_.option);
    if last != set_ {
      assert order == front + [last];
      KeySet(m, front, ex, set_);
    }
  }

  /** A key that some option displaces and none sets is gone. */
  lemma {:induction false} KeyDisplaced(m: Options, order: seq<MountOption>, ex: Exclusives, k: string,
                                        by_: MountOption)
    requires by_ in order && Conflict(ex, by_.option, k)
    requires forall o :: o in order ==> o.option != k
    ensures k !in MergeInOrder(m, order, ex)
  {
    var front, last := order[..|order| - 1], order[|order| - 1];
    RivalsConflict(ex, last.option, k);
    if last != by_ {
      assert order == front + [last];
      KeyDisplaced(m, front, ex, k, by_);
    }
  }

  /** If the other options are unambiguous, every iteration order gives the same result. */
  lemma MergeIsOver(m: Options, other: Options, excludes: seq<string>, ex: Exclusives, order: seq<MountOption>)
    requires Enumerates(order, other) && Unambiguous(ex, other, excludes)
    ensures Merge(m, order, excludes, ex) == Over(m, other, ex) - Names(excludes)
  {
    var r := MergeInOrder(m, order, ex);
    forall k | k !in Names(excludes)
      ensures k in r <==> k in Over(m, other, ex)
      ensures k in r ==> r[k] == Over(m, other, ex)[k]
    {
      KeyAfterMerge(m, other, excludes, ex, order, k);
    }
  }

  lemma KeyAfterMerge(m: Options, other: Options, excludes: seq<string>, ex: Exclusives, order: seq<MountOption>,
                      k: string)
    requires Enumerates(order, other) && Unambiguous(ex, other, excludes) && k !in excludes
    ensures var r := MergeInOrder(m, order, ex);
            && (k in r <==> k in Over(m, other, ex))
            && (k in r ==> r[k] == Over(m, other, ex)[k])
  {
    if k in other {
      KeySet(m, order, ex, other[k]);
    } else if Displaced(ex, other, k) {
      var j :| j in other && Conflict(ex, j, k);
      KeyDisplaced(m, order, ex, k, other[j]);
    } else {
      KeyUntouched(m, order, ex, k);
    }
  }

  lemma {:induction false} SomeEnumeration(m: Options) returns (order: seq<MountOption>)
    ensures Enumerates(order, m)
    decreases |m|
  {
    if m == map[] {
      order := [];
    } else {
      var k :| k in m;
      order := EnumerationEndingWith(m, k);
    }
  }

  lemma {:induction false} EnumerationEndingWith(m: Options, k: string) returns (order: seq<MountOption>)
    requires k in m
    ensures Enumerates(order, m) && order != [] && order[|order| - 1] == m[k]
    decreases |m|, 0
  {
    var rest: Options := m - {k};
    assert rest.Keys == m.Keys - {k};
    var front := SomeEnumeration(rest);
    order := front + [m[k]];
    forall j | j in m
      ensures m[j] in order
    {
      if j != k {
        assert rest[j] in front;
      }
    }
  }

  /** Order does not matter. */
  ghost predicate OrderIrrelevant(m: Options, other: Options, excludes: seq<string>, ex: Exclusives)
  {
    forall o1, o2 :: Enumerates(o1, other) && Enumerates(o2, other) ==>
                       Merge(m, o1, excludes, ex) == Merge(m, o2, excludes, ex)
  }

  /** Merge is confluent exactly when every conflict among the other options is between
      options that are excluded as well. */
  lemma MergeIsConfluentExactly(m: Options, other: Options, excludes: seq<string>, ex: Exclusives)
    ensures OrderIrrelevant(m, other, excludes, ex) <==> Unambiguous(ex, other, excludes)
  {
    if Unambiguous(ex, other, excludes) {
      forall o1, o2 | Enumerates(o1, other) && Enumerates(o2, other)
        ensures Merge(m, o1, excludes, ex) == Merge(m, o2, excludes, ex)
      {
        MergeIsOver(m, other, excludes, ex, o1);
        MergeIsOver(m, other, excludes, ex, o2);
      }
    } else {
      var a, b :| a in other && b in other && Conflict(ex, a, b) && !(a in excludes && b in excludes);
      ConflictIsSymmetric(ex, a, b);
      if a in excludes {
        OrderMatters(m, other, excludes, ex, b, a);
      } else {
        OrderMatters(m, other, excludes, ex, a, b);
      }
    }
  }

  lemma OrderMatters(m: Options, other: Options, excludes: seq<string>, ex: Exclusives, a: string, b: string)
    requires a in other && b in other && Conflict(ex, b, a) && a !in excludes
    ensures !OrderIrrelevant(m, other, excludes, ex)
  {
    var o1 := EnumerationEndingWith(other, a);
    var o2 := EnumerationEndingWith(other, b);
    RivalsConflict(ex, a, a);
    RivalsConflict(ex, b, a);
    assert a in Merge(m, o1, excludes, ex);
    assert a !in Merge(m, o2, excludes, ex);
  }

  /** Merging into conflict-free options keeps them so, in any order and even if the
      other options conflict among themselves. */
  lemma {:induction false} MergeKeepsConflictFree(m: Options, order: seq<MountOption>, excludes: seq<string>,
                                                  ex: Exclusives)
    requires ConflictFree(ex, m)
    ensures ConflictFree(ex, MergeInOrder(m, order, ex))
    ensures ConflictFree(ex, Merge(m, order, excludes, ex))
    decreases |order|
  {
    if order != [] {
      var front, last := order[..|order| - 1], order[|order| - 1];
      MergeKeepsConflictFree(m, front, excludes, ex);
      var r := MergeInOrder(m, front, ex);
      forall a, b | a in MergeOne(r, last, ex) && b in MergeOne(r, last, ex)
        ensures !Conflict(ex, a, b)
      {
        RivalsConflict(ex, last.option, a);
        RivalsConflict(ex, last.option, b);
        ConflictIsSymmetric(ex, a, b);
      }
    }
  }

  // ----- layering

  /** Options that exclude a common option exclude each other. */
  ghost predicate TransitiveConflicts(ex: Exclusives)
  {
    forall a, b, c :: Conflict(ex, a, b) && Conflict(ex, b, c) && a != c ==> Conflict(ex, a, c)
  }

  /** Exclusive sets that share no name have transitive conflicts. */
  lemma DisjointSetsAreTransitive(ex: Exclusives)
    requires forall i, j, x :: 0 <= i < |ex| && 0 <= j < |ex| && x in ex[i] && x in ex[j] ==> i == j
    ensures TransitiveConflicts(ex)
  {
    forall a, b, c | Conflict(ex, a, b) && Conflict(ex, b, c) && a != c
      ensures Conflict(ex, a, c)
    {
      var i :| 0 <= i < |ex| && a in ex[i] && b in ex[i];
      var j :| 0 <= j < |ex| && b in ex[j] && c in ex[j];
      assert i == j;
    }
  }

  lemma OverKeepsConflictFree(a: Options, b: Options, ex: Exclusives)
    requires ConflictFree(ex, a) && ConflictFree(ex, b)
    ensures ConflictFree(ex, Over(a, b, ex))
  {
    forall x, y | x in Over(a, b, ex) && y in Over(a, b, ex)
      ensures !Conflict(ex, x, y)
    {
      ConflictIsSymmetric(ex, x, y);
    }
  }

  lemma OverIsAssociative(a: Options, b: Options, c: Options, ex: Exclusives)
    requires TransitiveConflicts(ex)
    ensures Over(Over(a, b, ex), c, ex) == Over(a, Over(b, c, ex), ex)
  {
    var l, r := Over(Over(a, b, ex), c, ex), Over(a, Over(b, c, ex), ex);
    forall k
      ensures (k in l <==> k in r) && (k in l ==> l[k] == r[k])
    {
      KeyIsAssociative(a, b, c, ex, k);
    }
  }

  lemma KeyIsAssociative(a: Options, b: Options, c: Options, ex: Exclusives, k: string)
    requires TransitiveConflicts(ex)
    ensures var l, r := Over(Over(a, b, ex), c, ex), Over(a, Over(b, c, ex), ex);
            (k in l <==> k in r) && (k in l ==> l[k] == r[k])
  {
    if k !in c {
      DisplacedThrough(b, c, ex, k);
    }
  }

  /** Unless c sets the key itself, it is displaced by b under c exactly when it is
      displaced by b or by c. */
  lemma DisplacedThrough(b: Options, c: Options, ex: Exclusives, k: string)
    requires TransitiveConflicts(ex) && k !in c
    ensures Displaced(ex, Over(b, c, ex), k) <==> Displaced(ex, b, k) || Displaced(ex, c, k)
  {
  }

  ghost predicate LayeringIsAssociative(ex: Exclusives)
  {
    forall a, b, c :: ConflictFree(ex, a) && ConflictFree(ex, b) && ConflictFree(ex, c) ==>
                        Over(Over(a, b, ex), c, ex) == Over(a, Over(b, c, ex), ex)
  }

  function Only(name: string): Options
  {
    map[name := MountOption(name, "")]
  }

  /** Layering does not depend on the grouping exactly when conflicts are transitive. */
  lemma LayeringIsAssociativeExactly(ex: Exclusives)
    ensures LayeringIsAssociative(ex) <==> TransitiveConflicts(ex)
  {
    if TransitiveConflicts(ex) {
      forall a, b, c | ConflictFree(ex, a) && ConflictFree(ex, b) && ConflictFree(ex, c)
        ensures Over(Over(a, b, ex), c, ex) == Over(a, Over(b, c, ex), ex)
      {
        OverIsAssociative(a, b, c, ex);
      }
    } else {
      var x, y, z :| Conflict(ex, x, y) && Conflict(ex, y, z) && x != z && !Conflict(ex, x, z);
      GroupingMatters(ex, x, y, z);
    }
  }

  lemma GroupingMatters(ex: Exclusives, x: string, y: string, z: string)
    requires Conflict(ex, x, y) && Conflict(ex, y, z) && x != z && !Conflict(ex, x, z)
    ensures !LayeringIsAssociative(ex)
  {
    var a, b, c := Only(x), Only(y), Only(z);
    RivalReplaces(ex, x, y);
    RivalReplaces(ex, y, z);
    StrangerStays(ex, x, z);
    assert Over(Over(a, b, ex), c, ex) == c && x !in c;
    assert Over(a, Over(b, c, ex), ex) == Over(a, c, ex);
  }

  lemma RivalReplaces(ex: Exclusives, x: string, y: string)
    requires Conflict(ex, x, y)
    ensures Over(Only(x), Only(y), ex) == Only(y)
  {
    ConflictIsSymmetric(ex, x, y);
    assert y in Only(y) && Displaced(ex, Only(y), x);
  }

  lemma StrangerStays(ex: Exclusives, x: string, z: string)
    requires x != z && !Conflict(ex, x, z)
    ensures x in Over(Only(x), Only(z), ex)
  {
    ConflictIsSymmetric(ex, x, z);
  }

  // ----- sources, applied one after another

  /** A source adds options or drops one. */
  datatype Source = Add(options: Options) | Drop(name: string)

  function ApplySource(m: Options, source: Source, ex: Exclusives): Options
  {
    match source
    case Add(options) => Over(m, options, ex)
    case Drop(name) => m - {name}
  }

  function Stacked(base: Options, sources: seq<Source>, ex: Exclusives): Options
  {
    if sources == [] then base
    else ApplySource(Stacked(base, sources[..|sources| - 1], ex), sources[|sources| - 1], ex)
  }

  lemma {:induction false} StackedConcat(base: Options, a: seq<Source>, b: seq<Source>, ex: Exclusives)
    ensures Stacked(base, a + b, ex) == Stacked(Stacked(base, a, ex), b, ex)
    decreases |b|
  {
    if b == [] {
      assert a + b == a;
    } else {
      StackedConcat(base, a, b[..|b| - 1], ex);
      assert (a + b)[..|a + b| - 1] == a + b[..|b| - 1];
    }
  }

  /** The name is no default and conflicts with none. */
  predicate Foreign(defaults: Options, name: string, ex: Exclusives)
  {
    name !in defaults && !Displaced(ex, defaults, name)
  }

  lemma DropAbove(defaults: Options, m: Options, name: string, ex: Exclusives)
    requires Foreign(defaults, name, ex)
    ensures Over(defaults, m - {name}, ex) == Over(defaults, m, ex) - {name}
  {
    forall k | k in defaults
      ensures Displaced(ex, m - {name}, k) == Displaced(ex, m, k)
    {
      ForeignDisplacesNothing(defaults, m, name, k, ex);
    }
    var kept: Options := map k | k in defaults && !Displaced(ex, m, k) :: defaults[k];
    assert (map k | k in defaults && !Displaced(ex, m - {name}, k) :: defaults[k]) == kept;
    DropFromLast(kept, m, name);
  }

  lemma DropFromLast(kept: Options, m: Options, name: string)
    requires name !in kept
    ensures kept + (m - {name}) == (kept + m) - {name}
  {
  }

  lemma ForeignDisplacesNothing(defaults: Options, m: Options, name: string, k: string, ex: Exclusives)
    requires Foreign(defaults, name, ex) && k in defaults
    ensures Displaced(ex, m - {name}, k) == Displaced(ex, m, k)
  {
    ConflictIsSymmetric(ex, name, k);
    if Displaced(ex, m, k) {
      var j :| j in m && Conflict(ex, j, k);
      assert j in m - {name};
    }
  }

  /** Dropping an option above the defaults drops it from the whole, for all options above
      them, exactly when it is foreign to the defaults: a default of that name comes back, and
      so does one that the dropped option had displaced. */
  lemma DropReachesDefaultsExactly(defaults: Options, name: string, ex: Exclusives)
    ensures (forall m: Options :: Over(defaults, m - {name}, ex) == Over(defaults, m, ex) - {name})
            <==> Foreign(defaults, name, ex)
  {
    if Foreign(defaults, name, ex) {
      forall m: Options
        ensures Over(defaults, m - {name}, ex) == Over(defaults, m, ex) - {name}
      {
        DropAbove(defaults, m, name, ex);
      }
    } else {
      var only := Only(name);
      assert only - {name} == map[] && Over(defaults, map[], ex) == defaults;
      if name !in defaults {
        var d :| d in defaults && Conflict(ex, d, name);
        ConflictIsSymmetric(ex, d, name);
        assert name in only && Displaced(ex, only, d);
        assert d !in Over(defaults, only, ex);
      }
    }
  }

  /** Putting the defaults under the finished options, as the driver does when it mounts, is
      the same as applying defaults and sources one after another. */
  lemma {:induction false} DefaultsUnderneath(defaults: Options, sources: seq<Source>, ex: Exclusives)
    requires TransitiveConflicts(ex)
    requires forall i :: 0 <= i < |sources| && sources[i].Drop? ==> Foreign(defaults, sources[i].name, ex)
    ensures Over(defaults, Stacked(map[], sources, ex), ex) == Stacked(defaults, sources, ex)
    decreases |sources|
  {
    if sources == [] {
      assert Over(defaults, map[], ex) == defaults;
    } else {
      var front, last := sources[..|sources| - 1], sources[|sources| - 1];
      DefaultsUnderneath(defaults, front, ex);
      match last
      case Add(options) => OverIsAssociative(defaults, Stacked(map[], front, ex), options, ex);
      case Drop(name) => DropAbove(defaults, Stacked(map[], front, ex), name, ex);
    }
  }
}
