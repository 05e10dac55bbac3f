/** The printed form of mount options and its parser. */
module OptionText {
  import opened Text
  import opened Ordering
  import opened OptionAlgebra

  const SYNC_ON_CLOSE: string := "sync_on_close"
  const CONTAINER_NAME: string := "container_name"

  function PrintOption(o: MountOption): string
  {
    o.option + if o.value != "" then "=" + o.value else ""
  }

  /** newMountOptionFromString: a second '=' loses the value. */
  function ParseOption(s: string): MountOption
  {
    var parts := Split(s, '=');
    MountOption(parts[0], if |parts| == 2 then parts[1] else "")
  }

  function PrintAll(keys: seq<string>, m: Options): seq<string>
    requires forall i :: 0 <= i < |keys| ==> keys[i] in m
  {
    seq(|keys|, i requires 0 <= i < |keys| => PrintOption(m[keys[i]]))
  }

  /** The names of a map's options, sorted, are names of the map. */
  lemma SortedNames(m: Options)
    ensures forall i :: 0 <= i < |SortedKeys(m.Keys)| ==> SortedKeys(m.Keys)[i] in m
    ensures forall k :: k in m <==> k in SortedKeys(m.Keys)
  {
    assert forall k :: k in SortedKeys(m.Keys) <==> k in Elements(SortedKeys(m.Keys));
  }

  /** MountOptions.String: the options in the order of their names, joined by commas. */
  ghost function Print(m: Options): string
  {
    SortedNames(m);
    Join(PrintAll(SortedKeys(m.Keys), m), ',')
  }

  /** The loops of getOpts and Strings over the sorted names. */
  method Strings(keys: seq<string>, m: Options) returns (parts: seq<string>)
    requires forall i :: 0 <= i < |keys| ==> keys[i] in m
    ensures parts == PrintAll(keys, m)
  {
    parts := [];
    for i := 0 to |keys|
      invariant |parts| == i
      invariant forall j :: 0 <= j < i ==> parts[j] == PrintOption(m[keys[j]])
    {
      parts := parts + [PrintOption(m[keys[i]])];
    }
  }

  method String(m: Options) returns (s: string)
    ensures s == Print(m)
  {
    var keys := SortKeys(m.Keys);
    SortedNames(m);
    var parts := Strings(keys, m);
    s := Join(parts, ',');
  }

  function ParseEntry(m: Options, part: string): Options
  {
    var s := TrimSpace(part);
    if s == "" then m else m[ParseOption(s).option := ParseOption(s)]
  }

  /** NewMountOptions: blank entries are skipped, later ones win. */
  function ParseAll(parts: seq<string>): Options
  {
    if parts == [] then map[] else ParseEntry(ParseAll(parts[..|parts| - 1]), parts[|parts| - 1])
  }

  lemma ParseAllPrefix(parts: seq<string>, i: nat)
    requires i < |parts|
    ensures ParseAll(parts[..i + 1]) == ParseEntry(ParseAll(parts[..i]), parts[i])
  {
    assert parts[..i + 1][..i] == parts[..i];
  }

  /** NewMountOptionsFromString */
  function Parse(s: string): Options
  {
    if s == "" then map[] else ParseAll(Split(s, ','))
  }

  /** The loop of NewMountOptions computes ParseAll. */
  method NewMountOptions(parts: seq<string>) returns (m: Options)
    ensures m == ParseAll(parts)
  {
    m := map[];
    for i := 0 to |parts|
      invariant m == ParseAll(parts[..i])
    {
      ParseAllPrefix(parts, i);
      var s := TrimSpace(parts[i]);
      if s != "" {
        var o := ParseOption(s);
        m := m[o.option := o];
      }
    }
    assert parts[..|parts|] == parts;
  }

  /** An option whose text is one entry of a list and splits at one place at most. */
  predicate Printable(o: MountOption)
  {
    && ',' !in o.option && '=' !in o.option && ',' !in o.value && '=' !in o.value
    && PrintOption(o) != "" && TrimSpace(PrintOption(o)) == PrintOption(o)
  }

  predicate AllPrintable(m: Options)
  {
    forall k :: k in m ==> Printable(m[k])
  }

  /** A printed option is read back exactly when neither of its parts holds '='. */
  lemma ParsePrintOption(o: MountOption)
    ensures ParseOption(PrintOption(o)) == o <==> '=' !in o.option && '=' !in o.value
  {
    ParsedHoldsNoEquals(PrintOption(o));
    if '=' !in o.option && '=' !in o.value {
      SplitWithoutSeparator(o.option, '=');
      if o.value == "" {
        assert PrintOption(o) == o.option;
      } else {
        SplitWithoutSeparator(o.value, '=');
        SplitAround(o.option, '=', o.value);
        assert PrintOption(o) == o.option + ['='] + o.value;
      }
    }
  }

  lemma ParsedHoldsNoEquals(s: string)
    ensures '=' !in ParseOption(s).option && '=' !in ParseOption(s).value
  {
    FieldsHoldNoSeparator(s, '=');
  }

  /** The text name=value keeps its value exactly when the value holds no '='; with a second
      one the value is lost altogether. */
  lemma SecondEqualsLosesValue(name: string, value: string)
    requires '=' !in name
    ensures ParseOption(name + "=" + value).option == name
    ensures ParseOption(name + "=" + value).value == if '=' in value then "" else value
  {
    SplitAround(name, '=', value);
    SplitWithoutSeparator(name, '=');
    if '=' in value {
      SplitsAtSeparator(value, '=');
    } else {
      SplitWithoutSeparator(value, '=');
    }
  }

  /** An entry of a list that the parser reads as a given option. */
  predicate ReadAs(part: string, o: MountOption)
  {
    TrimSpace(part) != "" && ParseOption(TrimSpace(part)) == o
  }

  lemma PrintableReadsBack(o: MountOption)
    requires Printable(o)
    ensures ReadAs(PrintOption(o), o)
  {
    ParsePrintOption(o);
  }

  lemma ReadEntry(m: Options, part: string, o: MountOption)
    requires ReadAs(part, o)
    ensures ParseEntry(m, part) == m[o.option := o]
  {
  }

  function FileAll(os: seq<MountOption>): Options
  {
    if os == [] then map[] else FileAll(os[..|os| - 1])[os[|os| - 1].option := os[|os| - 1]]
  }

  lemma {:induction false} ParseReads(parts: seq<string>, os: seq<MountOption>)
    requires |parts| == |os| && forall i :: 0 <= i < |os| ==> ReadAs(parts[i], os[i])
    ensures ParseAll(parts) == FileAll(os)
  {
    if os != [] {
      var n := |os| - 1;
      ParseReads(parts[..n], os[..n]);
      ReadEntry(ParseAll(parts[..n]), parts[n], os[n]);
    }
  }

  function Lookup(keys: seq<string>, m: Options): seq<MountOption>
    requires forall i :: 0 <= i < |keys| ==> keys[i] in m
  {
    seq(|keys|, i requires 0 <= i < |keys| => m[keys[i]])
  }

  function Restrict(m: Options, keys: seq<string>): Options
  {
    map k | k in m && k in keys :: m[k]
  }

  lemma {:induction false} FileLookup(keys: seq<string>, m: Options)
    requires forall i :: 0 <= i < |keys| ==> keys[i] in m
    ensures FileAll(Lookup(keys, m)) == Restrict(m, keys)
    decreases |keys|
  {
    if keys != [] {
      var front, last := keys[..|keys| - 1], keys[|keys| - 1];
      FileLookup(front, m);
      assert Lookup(keys, m)[..|front|] == Lookup(front, m);
      RestrictOneMore(m, front, last);
      assert keys == front + [last];
    }
  }

  lemma RestrictOneMore(m: Options, front: seq<string>, last: string)
    requires last in m
    ensures Restrict(m, front + [last]) == Restrict(m, front)[last := m[last]]
  {
  }

  lemma ParsePrintedKeys(keys: seq<string>, m: Options)
    requires AllPrintable(m) && forall i :: 0 <= i < |keys| ==> keys[i] in m
    ensures ParseAll(PrintAll(keys, m)) == Restrict(m, keys)
  {
    forall i | 0 <= i < |keys|
      ensures ReadAs(PrintAll(keys, m)[i], Lookup(keys, m)[i])
    {
      PrintableReadsBack(m[keys[i]]);
    }
    ParseReads(PrintAll(keys, m), Lookup(keys, m));
    FileLookup(keys, m);
  }

  lemma ParseJoined(parts: seq<string>)
    requires forall i :: 0 <= i < |parts| ==> ',' !in parts[i] && parts[i] != ""
    ensures Parse(Join(parts, ',')) == ParseAll(parts)
  {
    if parts != [] {
      SplitJoin(parts, ',');
      assert Join(parts, ',') != "";
    }
  }

  lemma EntryIsPlain(o: MountOption)
    requires Printable(o)
    ensures ',' !in PrintOption(o) && PrintOption(o) != ""
  {
  }

  lemma EntriesArePlain(keys: seq<string>, m: Options)
    requires AllPrintable(m)
    requires forall i :: 0 <= i < |keys| ==> keys[i] in m
    ensures forall i :: 0 <= i < |keys| ==> ',' !in PrintAll(keys, m)[i] && PrintAll(keys, m)[i] != ""
  {
    forall i | 0 <= i < |keys|
      ensures ',' !in PrintAll(keys, m)[i] && PrintAll(keys, m)[i] != ""
    {
      EntryIsPlain(m[keys[i]]);
    }
  }

  /** Parsing undoes printing exactly when every option is printable. */
  lemma ParsePrint(m: Options)
    ensures Parse(Print(m)) == m <==> AllPrintable(m)
  {
    if AllPrintable(m) {
      ParsePrintable(m);
    } else if Parse(Print(m)) == m {
      ReadBackIsPrintable(m);
    }
  }

  lemma ParsePrintable(m: Options)
    requires AllPrintable(m)
    ensures Parse(Print(m)) == m
  {
    var keys := SortedKeys(m.Keys);
    SortedNames(m);
    assert Parse(Print(m)) == ParseAll(PrintAll(keys, m)) by {
      EntriesArePlain(keys, m);
      ParseJoined(PrintAll(keys, m));
    }
    ParsePrintedKeys(keys, m);
    assert Restrict(m, keys) == m;
  }

  // ----- what the parser can give back at all

  /** Neither part holds a separator. */
  predicate Clean(o: MountOption)
  {
    ',' !in o.option && '=' !in o.option && ',' !in o.value && '=' !in o.value
  }

  lemma ParsedEntryIsClean(part: string)
    requires ',' !in part
    ensures Clean(ParseOption(TrimSpace(part)))
  {
    TrimKeeps(part, ',');
    TrimKeeps(TrimLeft(part), ',');
    ParsedHoldsNoEquals(TrimSpace(part));
    FieldsOf(TrimSpace(part), '=');
  }

  /** Every parsed option comes from an entry. */
  lemma {:induction false} ParsedFrom(parts: seq<string>, k: string)
    requires k in ParseAll(parts)
    ensures exists i :: 0 <= i < |parts| && ReadAs(parts[i], ParseAll(parts)[k])
  {
    var front, last := parts[..|parts| - 1], parts[|parts| - 1];
    if !ReadAs(last, ParseAll(parts)[k]) {
      ParsedFrom(front, k);
      var i :| 0 <= i < |front| && ReadAs(front[i], ParseAll(front)[k]);
      assert front[i] == parts[i];
    }
  }

  lemma ParsedIsClean(s: string, k: string)
    requires k in Parse(s)
    ensures Clean(Parse(s)[k])
  {
    FieldsHoldNoSeparator(s, ',');
    ParsedFrom(Split(s, ','), k);
    var i :| 0 <= i < |Split(s, ',')| && ReadAs(Split(s, ',')[i], ParseAll(Split(s, ','))[k]);
    ParsedEntryIsClean(Split(s, ',')[i]);
  }

  /** What the entry of a clean option is read as: its parts, trimmed at the outer ends. */
  function Trimmed(o: MountOption): MountOption
  {
    if o.value == "" then MountOption(TrimSpace(o.option), "")
    else MountOption(TrimLeft(o.option), TrimRight(o.value))
  }

  lemma EntryOfFlag(name: string)
    requires '=' !in name
    ensures ParseOption(TrimSpace(name)) == MountOption(TrimSpace(name), "")
  {
    TrimKeeps(name, '=');
    TrimKeeps(TrimLeft(name), '=');
    SplitWithoutSeparator(TrimSpace(name), '=');
  }

  lemma TrimAround(name: string, value: string)
    ensures TrimSpace(name + "=" + value) == TrimLeft(name) + "=" + TrimRight(value)
  {
    assert name + "=" + value == name + ("=" + value);
    TrimLeftBefore(name, "=" + value);
    assert TrimLeft(name) + ("=" + value) == (TrimLeft(name) + "=") + value;
    TrimRightAfter(TrimLeft(name) + "=", value);
  }

  lemma EntryOfValue(name: string, value: string)
    requires '=' !in name && '=' !in value
    ensures ParseOption(TrimSpace(name + "=" + value)) == MountOption(TrimLeft(name), TrimRight(value))
  {
    TrimKeeps(name, '=');
    TrimKeeps(value, '=');
    TrimAround(name, value);
    SecondEqualsLosesValue(TrimLeft(name), TrimRight(value));
  }

  lemma PrintIs(o: MountOption)
    ensures PrintOption(o) == if o.value == "" then o.option else o.option + "=" + o.value
  {
    assert o.option + "" == o.option;
    assert o.option + ("=" + o.value) == o.option + "=" + o.value;
  }

  lemma EntryOfClean(o: MountOption)
    requires Clean(o)
    ensures ParseOption(TrimSpace(PrintOption(o))) == Trimmed(o)
  {
    PrintIs(o);
    if o.value == "" {
      EntryOfFlag(o.option);
    } else {
      EntryOfValue(o.option, o.value);
    }
  }

  lemma TrimmedIsShorter(o: MountOption)
    ensures |Trimmed(o).option| <= |o.option|
    ensures |Trimmed(o).option| == |o.option| ==> Trimmed(o).option == o.option
  {
    TrimShortens(o.option);
    TrimShortens(TrimLeft(o.option));
  }

  lemma Longest(keys: set<string>) returns (k: string)
    requires keys != {}
    ensures k in keys && forall j :: j in keys ==> |j| <= |k|
    decreases |keys|
  {
    k :| k in keys;
    if keys != {k} {
      var j := Longest(keys - {k});
      if |k| < |j| {
        k := j;
      }
    }
  }

  /** A map that shortens what it changes and reaches every key of a set from within changes
      none of them: the longest comes from itself, and so on down. */
  lemma {:induction false} ReachingAllChangesNone(f: map<string, string>, from: map<string, string>, keys: set<string>)
    requires forall k :: k in keys ==> k in f && (|f[k]| < |k| || f[k] == k)
    requires forall k :: k in keys ==> k in from && from[k] in keys && f[from[k]] == k
    ensures forall k :: k in keys ==> from[k] == k
    decreases |keys|
  {
    if keys != {} {
      var k := Longest(keys);
      assert from[k] == k;
      forall j | j in keys - {k}
        ensures from[j] in keys - {k}
      {
        assert f[from[j]] == j;
      }
      ReachingAllChangesNone(f, from, keys - {k});
    }
  }

  predicate AllClean(m: Options)
  {
    forall k :: k in m ==> Clean(m[k])
  }

  /** The entry of option j is read as option k. */
  predicate Gives(m: Options, j: string, k: string)
    requires k in m
  {
    j in m && Trimmed(m[j]) == m[k] && TrimSpace(PrintOption(m[j])) != ""
  }

  ghost predicate Given(m: Options, k: string)
    requires k in m
  {
    exists j :: Gives(m, j, k)
  }

  lemma PrintedEntries(m: Options, keys: seq<string>)
    requires keys != [] && forall i :: 0 <= i < |keys| ==> keys[i] in m && Clean(m[keys[i]])
    ensures Split(Join(PrintAll(keys, m), ','), ',') == PrintAll(keys, m)
  {
    SplitJoin(PrintAll(keys, m), ',');
  }

  lemma EntriesReadBack(m: Options, keys: seq<string>, k: string)
    requires forall i :: 0 <= i < |keys| ==> keys[i] in m
    requires ParseAll(PrintAll(keys, m)) == m && k in m && AllClean(m)
    ensures Given(m, k)
  {
    ParsedFrom(PrintAll(keys, m), k);
    var i :| 0 <= i < |keys| && ReadAs(PrintAll(keys, m)[i], m[k]);
    EntryOfClean(m[keys[i]]);
    assert Gives(m, keys[i], k);
  }

  lemma ReadBackIsClean(m: Options)
    requires Parse(Print(m)) == m
    ensures AllClean(m)
  {
    forall k | k in m
      ensures Clean(m[k])
    {
      ParsedIsClean(Print(m), k);
    }
  }

  lemma ReadBackIsGiven(m: Options, k: string)
    requires Parse(Print(m)) == m && AllClean(m) && k in m
    ensures Given(m, k)
  {
    var keys := SortedKeys(m.Keys);
    SortedNames(m);
    PrintedEntries(m, keys);
    EntriesReadBack(m, keys, k);
  }

  ghost function Giver(m: Options, k: string): (j: string)
    requires k in m && Given(m, k)
    ensures Gives(m, j, k)
  {
    var j :| Gives(m, j, k);
    j
  }

  function TrimmedNames(m: Options): map<string, string>
  {
    map k | k in m :: Trimmed(m[k]).option
  }

  lemma TrimmedNamesShrink(m: Options)
    ensures forall k :: k in m ==> k in TrimmedNames(m) && (|TrimmedNames(m)[k]| < |k| || TrimmedNames(m)[k] == k)
  {
    forall k | k in m
      ensures |TrimmedNames(m)[k]| < |k| || TrimmedNames(m)[k] == k
    {
      TrimmedIsShorter(m[k]);
    }
  }

  lemma GivenIsFixed(m: Options)
    requires forall k :: k in m ==> Given(m, k)
    ensures forall k :: k in m ==> Gives(m, k, k)
  {
    var from := map k | k in m :: Giver(m, k);
    TrimmedNamesShrink(m);
    ReachingAllChangesNone(TrimmedNames(m), from, m.Keys);
  }

  lemma FixedIsPrintable(o: MountOption)
    requires Clean(o) && Trimmed(o) == o && TrimSpace(PrintOption(o)) != ""
    ensures Printable(o)
  {
    PrintIs(o);
    if o.value != "" {
      TrimAround(o.option, o.value);
    }
  }

  lemma ReadBackIsPrintable(m: Options)
    requires Parse(Print(m)) == m
    ensures AllPrintable(m)
  {
    ReadBackIsClean(m);
    forall k | k in m
      ensures Given(m, k)
    {
      ReadBackIsGiven(m, k);
    }
    GivenIsFixed(m);
    forall k | k in m
      ensures Printable(m[k])
    {
      assert Gives(m, k, k);
      FixedIsPrintable(m[k]);
    }
  }

  /** Printing is injective, so the printed form identifies the options. */
  lemma PrintIsInjective(a: Options, b: Options)
    requires AllPrintable(a) && AllPrintable(b) && Print(a) == Print(b)
    ensures a == b
  {
    ParsePrint(a);
    ParsePrint(b);
  }

  /** AsVolumeContext: two options never travel with the volume. */
  ghost function AsVolumeContext(m: Options): string
  {
    Print(m - {SYNC_ON_CLOSE, CONTAINER_NAME})
  }

  /** What CreateVolume stores is what NodePublishVolume reads back. */
  lemma VolumeContextRoundTrip(m: Options)
    ensures Parse(AsVolumeContext(m)) == m - {SYNC_ON_CLOSE, CONTAINER_NAME}
            <==> AllPrintable(m - {SYNC_ON_CLOSE, CONTAINER_NAME})
  {
    ParsePrint(m - {SYNC_ON_CLOSE, CONTAINER_NAME});
  }
}
