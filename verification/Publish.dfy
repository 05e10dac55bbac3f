/** How NodePublishVolume assembles mount options: volume context, mount flags, PVC and
    pod overrides, the read-only request, and the node's defaults underneath. */
module Publish {
  import opened Text
  import opened Wrappers
  import opened OptionAlgebra
  import opened OptionText
  import opened MountOptions

  const WRITE_CACHE: string := "writecache"

  // ----- overrides

  predicate IsRemoval(part: string)
  {
    TrimSpace(part) != "" && TrimSpace(part)[0] == '-'
  }

  /** The options that an entry without '-' adds. */
  function Addition(part: string): Options
  {
    var s := TrimSpace(part);
    if s == "" then map[] else if s[0] == '+' then Parse(s[1..]) else Parse(s)
  }

  /** One entry of an override: '-' removes an option, '+' or nothing adds one. */
  function Modify(m: Options, part: string, ex: Exclusives): Options
  {
    if IsRemoval(part) then m - {ParseOption(TrimSpace(part)[1..]).option} else Over(m, Addition(part), ex)
  }

  function ModifyAll(m: Options, parts: seq<string>, ex: Exclusives): Options
  {
    if parts == [] then m else Modify(ModifyAll(m, parts[..|parts| - 1], ex), parts[|parts| - 1], ex)
  }

  /** An override entry holds no comma, so it adds at most one option. */
  lemma AdditionIsSingle(s: string)
    requires ',' !in s
    ensures HoldsOne(Parse(s))
  {
    if s != "" {
      SplitWithoutSeparator(s, ',');
      var none: seq<string> := [];
      assert Split(s, ',')[..0] == none;
      assert ParseAll(none) == map[];
    }
  }

  ghost predicate HoldsOne(m: Options)
  {
    forall a, b :: a in m && b in m ==> a == b
  }

  lemma EntryAddsOneOption(part: string)
    requires ',' !in part
    ensures HoldsOne(Addition(part))
  {
    TrimKeeps(part, ',');
    TrimKeeps(TrimLeft(part), ',');
    var s := TrimSpace(part);
    if s != "" {
      AdditionIsSingle(s);
      AdditionIsSingle(s[1..]);
    }
  }

  /** ApplyToOptions: additions change the given map, until a removal replaces it. */
  method ApplyToOptions(override: string, opts: MountOptions, ex: Exclusives) returns (r: MountOptions)
    modifies opts.custom
    ensures r.custom == opts.custom || fresh(r.custom)
    ensures r.exclude == opts.exclude
    ensures r.Value() == ModifyAll(old(opts.Value()), Split(override, ','), ex)
  {
    FieldsHoldNoSeparator(override, ',');
    r := ApplyParts(Split(override, ','), opts, ex);
  }

  /** The loop of ApplyToOptions. */
  method ApplyParts(parts: seq<string>, opts: MountOptions, ex: Exclusives) returns (r: MountOptions)
    requires forall i :: 0 <= i < |parts| ==> ',' !in parts[i]
    modifies opts.custom
    ensures r.custom == opts.custom || fresh(r.custom)
    ensures r.exclude == opts.exclude
    ensures r.Value() == ModifyAll(old(opts.Value()), parts, ex)
  {
    r := opts;
    for i := 0 to |parts|
      invariant r.custom == opts.custom || fresh(r.custom)
      invariant r.exclude == opts.exclude
      invariant r.Value() == ModifyAll(old(opts.Value()), parts[..i], ex)
    {
      ModifyPrefix(old(opts.Value()), parts, i, ex);
      r := ApplyEntry(parts[i], r, ex);
    }
    assert parts[..|parts|] == parts;
  }

  lemma ModifyPrefix(m: Options, parts: seq<string>, i: nat, ex: Exclusives)
    requires i < |parts|
    ensures ModifyAll(m, parts[..i + 1], ex) == Modify(ModifyAll(m, parts[..i], ex), parts[i], ex)
  {
    assert parts[..i + 1][..i] == parts[..i];
  }

  method ApplyEntry(part: string, opts: MountOptions, ex: Exclusives) returns (r: MountOptions)
    requires ',' !in part
    modifies opts.custom
    ensures r.custom == opts.custom || fresh(r.custom)
    ensures r.exclude == opts.exclude
    ensures r.Value() == Modify(old(opts.Value()), part, ex)
  {
    var s := TrimSpace(part);
    r := opts;
    EntryAddsOneOption(part);
    if s == "" {
      assert Over(opts.Value(), map[], ex) == opts.Value();
    } else if s[0] == '-' {
      r := RemoveOption(opts, s[1..]);
    } else {
      var added := if s[0] == '+' then s[1..] else s;
      assert Addition(part) == Parse(added);
      AddEntry(opts, added, ex);
    }
  }

  method AddEntry(opts: MountOptions, s: string, ex: Exclusives)
    requires HoldsOne(Parse(s))
    modifies opts.custom
    ensures opts.Value() == Over(old(opts.Value()), Parse(s), ex)
  {
    var toAdd := NewOptionsFromString(s);
    var order := MergeInto(opts, toAdd, ex);
    MergeIsOver(old(opts.Value()), Parse(s), [], ex, order);
  }

  // ----- what the text of an override means

  lemma OverrideOne(m: Options, part: string, ex: Exclusives)
    requires part != "" && ',' !in part
    ensures Overridden(m, part, ex) == Modify(m, part, ex)
  {
    SplitWithoutSeparator(part, ',');
    var none: seq<string> := [];
    assert [part][..0] == none;
    assert ModifyAll(m, none, ex) == m;
  }

  lemma TrimmedEnds(p: string)
    requires p != "" && TrimSpace(p) == p
    ensures !IsSpace(p[0]) && !IsSpace(p[|p| - 1])
  {
    var left, right := TrimSpaceCutsBlanks(p);
  }

  lemma ParseOneEntry(p: string)
    requires p != "" && ',' !in p && TrimSpace(p) == p
    ensures Parse(p) == map[ParseOption(p).option := ParseOption(p)]
  {
    SplitWithoutSeparator(p, ',');
    var none: seq<string> := [];
    assert [p][..0] == none;
    assert ParseAll(none) == map[];
    ParseAllPrefix([p], 0);
    assert [p][..1] == [p];
  }

  lemma PrintableText(o: MountOption)
    requires Printable(o)
    ensures var p := PrintOption(o);
            && p != "" && ',' !in p && !IsSpace(p[0]) && !IsSpace(p[|p| - 1])
            && ParseOption(p) == o && Parse(p) == map[o.option := o]
  {
    EntryIsPlain(o);
    ParsePrintOption(o);
    TrimmedEnds(PrintOption(o));
    ParseOneEntry(PrintOption(o));
  }

  lemma SignedText(sign: char, p: string)
    requires (sign == '-' || sign == '+') && p != "" && ',' !in p && !IsSpace(p[|p| - 1])
    ensures ',' !in [sign] + p && TrimSpace([sign] + p) == [sign] + p && ([sign] + p)[1..] == p
  {
    TrimNothing([sign] + p);
  }

  /** An entry with '-' removes the option it names, whatever value it gives. */
  lemma MinusRemoves(m: Options, o: MountOption, ex: Exclusives)
    requires Printable(o)
    ensures Overridden(m, "-" + PrintOption(o), ex) == m - {o.option}
  {
    PrintableText(o);
    SignedText('-', PrintOption(o));
    OverrideOne(m, "-" + PrintOption(o), ex);
  }

  /** An entry with '+' sets the option and displaces its rivals. */
  lemma PlusAdds(m: Options, o: MountOption, ex: Exclusives)
    requires Printable(o)
    ensures Overridden(m, "+" + PrintOption(o), ex) == Over(m, map[o.option := o], ex)
  {
    PrintableText(o);
    SignedText('+', PrintOption(o));
    OverrideOne(m, "+" + PrintOption(o), ex);
  }

  /** So does an entry without a sign. */
  lemma UnsignedAdds(m: Options, o: MountOption, ex: Exclusives)
    requires Printable(o) && PrintOption(o)[0] != '-' && PrintOption(o)[0] != '+'
    ensures Overridden(m, PrintOption(o), ex) == Over(m, map[o.option := o], ex)
  {
    PrintableText(o);
    TrimNothing(PrintOption(o));
    OverrideOne(m, PrintOption(o), ex);
  }

  lemma ModifyConcat(m: Options, a: seq<string>, b: seq<string>, ex: Exclusives)
    ensures ModifyAll(m, a + b, ex) == ModifyAll(ModifyAll(m, a, ex), b, ex)
  {
    ModifyIsStacking(m, a + b, ex);
    ModifyIsStacking(m, a, ex);
    ModifyIsStacking(ModifyAll(m, a, ex), b, ex);
    StackedConcat(m, EntrySources(a), EntrySources(b), ex);
    SourcesConcat(a, b);
  }

  lemma SourcesConcat(a: seq<string>, b: seq<string>)
    ensures EntrySources(a + b) == EntrySources(a) + EntrySources(b)
  {
  }

  lemma OverriddenIsModified(m: Options, override: string, ex: Exclusives)
    ensures Overridden(m, override, ex) == ModifyAll(m, Split(override, ','), ex)
  {
    if override == "" {
      var none: seq<string> := [];
      assert Split(override, ',') == [""] && [""][..0] == none;
      assert ModifyAll(m, none, ex) == m;
      assert Over(m, map[], ex) == m;
    }
  }

  /** A comma separates overrides that apply one after another. */
  lemma CommaIsSequence(m: Options, a: string, b: string, ex: Exclusives)
    ensures Overridden(m, a + "," + b, ex) == Overridden(Overridden(m, a, ex), b, ex)
  {
    SplitAround(a, ',', b);
    OverriddenIsModified(m, a + "," + b, ex);
    OverriddenIsModified(m, a, ex);
    OverriddenIsModified(Overridden(m, a, ex), b, ex);
    ModifyConcat(m, Split(a, ','), Split(b, ','), ex);
  }

  lemma {:induction false} ModifyKeepsConflictFree(m: Options, parts: seq<string>, ex: Exclusives)
    requires ConflictFree(ex, m)
    requires forall i :: 0 <= i < |parts| ==> ',' !in parts[i]
    ensures ConflictFree(ex, ModifyAll(m, parts, ex))
    decreases |parts|
  {
    if parts != [] {
      var front, last := parts[..|parts| - 1], parts[|parts| - 1];
      ModifyKeepsConflictFree(m, front, ex);
      if !IsRemoval(last) {
        EntryAddsOneOption(last);
        OverKeepsConflictFree(ModifyAll(m, front, ex), Addition(last), ex);
      }
    }
  }

  // ----- the pipeline

  /** What is known of the cluster: None for a volume without an API client. */
  type Client = Option<bool>

  /** pruneUnsupportedMountOptions */
  function Pruned(m: Options, supportsSyncOnClose: Client): Options
  {
    (if supportsSyncOnClose == Some(true) then m else m - {SYNC_ON_CLOSE}) - {READ_ONLY} - {CONTAINER_NAME}
  }

  datatype Request = Request(context: Option<string>, flags: seq<string>, pvc: string, pod: string, readOnly: bool)

  function ContextOptions(req: Request, client: Client, ex: Exclusives): Options
  {
    if req.context.None? then map[] else Pruned(Over(map[], Parse(req.context.value), ex), client)
  }

  function Overridden(m: Options, override: string, ex: Exclusives): Options
  {
    if override == "" then m else ModifyAll(m, Split(override, ','), ex)
  }

  function VolumeOptions(req: Request, client: Client, ex: Exclusives): Options
  {
    var fromFlags := Over(ContextOptions(req, client, ex), Parse(Join(req.flags, ',')), ex);
    var overridden := Overridden(Overridden(fromFlags, req.pvc, ex), req.pod, ex);
    if req.readOnly then Over(overridden, Only(READ_ONLY), ex) - {READ_WRITE} else overridden
  }

  /** What is handed to the mounter when no source contradicts itself. The volume's
      exclude list is that of the default options: one empty name. */
  function Published(defaults: string, req: Request, client: Client, ex: Exclusives): Options
  {
    Over(Over(map[], Parse(defaults), ex), VolumeOptions(req, client, ex), ex) - {""}
  }

  /** No source names two options of one exclusive set. */
  predicate Consistent(defaults: string, req: Request, ex: Exclusives)
  {
    ContextAndFlagsConsistent(req, ex) && ConflictFree(ex, Parse(defaults))
  }

  predicate ContextAndFlagsConsistent(req: Request, ex: Exclusives)
  {
    && (req.context.Some? ==> ConflictFree(ex, Parse(req.context.value)))
    && ConflictFree(ex, Parse(Join(req.flags, ',')))
  }

  lemma MergeConsistent(m: Options, other: Options, ex: Exclusives, order: seq<MountOption>)
    requires Enumerates(order, other) && ConflictFree(ex, other)
    ensures Merge(m, order, [], ex) == Over(m, other, ex)
  {
    MergeIsOver(m, other, [], ex, order);
  }

  /** Drop an option if it is there. */
  method DropOption(opts: MountOptions, name: string) returns (r: MountOptions)
    requires '=' !in name
    ensures r.custom == opts.custom || fresh(r.custom)
    ensures r.exclude == opts.exclude && r.Value() == opts.Value() - {name}
  {
    r := opts;
    ParseFlag(name);
    if ParseOption(name).option in opts.custom.options {
      r := RemoveOption(opts, name);
    }
  }

  method Prune(opts: MountOptions, supportsSyncOnClose: Client) returns (r: MountOptions)
    ensures r.custom == opts.custom || fresh(r.custom)
    ensures r.exclude == opts.exclude && r.Value() == Pruned(opts.Value(), supportsSyncOnClose)
  {
    r := opts;
    if supportsSyncOnClose != Some(true) {
      r := DropOption(r, SYNC_ON_CLOSE);
    }
    r := DropOption(r, READ_ONLY);
    r := DropOption(r, CONTAINER_NAME);
  }

  /** The part of NodePublishVolume up to the overrides. */
  method FromContextAndFlags(req: Request, client: Client, ex: Exclusives) returns (volume: MountOptions)
    ensures fresh(volume.custom) && volume.exclude == [""]
    ensures ConflictFree(ex, volume.Value())
    ensures ContextAndFlagsConsistent(req, ex) ==>
              volume.Value() == Over(ContextOptions(req, client, ex), Parse(Join(req.flags, ',')), ex)
  {
    volume := DefaultOptions();
    if req.context.Some? {
      var context := NewOptionsFromString(req.context.value);
      var order := MergeInto(volume, context, ex);
      MergeKeepsConflictFree(map[], order, [], ex);
      if ContextAndFlagsConsistent(req, ex) {
        MergeConsistent(map[], context.Value(), ex, order);
      }
      volume := Prune(volume, client);
    }
    var flags := NewOptionsFromString(Join(req.flags, ','));
    ghost var before := volume.Value();
    var order := MergeInto(volume, flags, ex);
    MergeKeepsConflictFree(before, order, [], ex);
    if ContextAndFlagsConsistent(req, ex) {
      MergeConsistent(before, flags.Value(), ex, order);
    }
  }

  lemma ParseReadOnly()
    ensures ParseAll([READ_ONLY]) == Only(READ_ONLY)
  {
    var none: seq<string> := [];
    assert [READ_ONLY][..0] == none;
    assert TrimSpace(READ_ONLY) == READ_ONLY;
    ParseFlag(READ_ONLY);
  }

  /** The read-only request: 'ro' is set and 'rw' is excluded. */
  method RequestReadOnly(volume: MountOptions, ex: Exclusives)
    requires ConflictFree(ex, volume.Value())
    modifies volume.custom
    ensures ConflictFree(ex, volume.Value())
    ensures volume.Value() == Over(old(volume.Value()), Only(READ_ONLY), ex) - {READ_WRITE}
  {
    ParseReadOnly();
    var ro := NewOptions([READ_ONLY], [READ_WRITE]);
    ghost var before := volume.Value();
    var order := MergeInto(volume, ro, ex);
    MergeKeepsConflictFree(before, order, [READ_WRITE], ex);
    MergeIsOver(before, ro.Value(), [READ_WRITE], ex, order);
    NamesOfOne(READ_WRITE);
  }

  method ApplyOverrides(req: Request, opts: MountOptions, ex: Exclusives) returns (volume: MountOptions)
    requires ConflictFree(ex, opts.Value())
    modifies opts.custom
    ensures volume.custom == opts.custom || fresh(volume.custom)
    ensures volume.exclude == opts.exclude && ConflictFree(ex, volume.Value())
    ensures volume.Value() == Overridden(Overridden(old(opts.Value()), req.pvc, ex), req.pod, ex)
  {
    volume := opts;
    if req.pvc != "" {
      FieldsHoldNoSeparator(req.pvc, ',');
      ModifyKeepsConflictFree(volume.Value(), Split(req.pvc, ','), ex);
      volume := ApplyToOptions(req.pvc, volume, ex);
    }
    if req.pod != "" {
      FieldsHoldNoSeparator(req.pod, ',');
      ModifyKeepsConflictFree(volume.Value(), Split(req.pod, ','), ex);
      volume := ApplyToOptions(req.pod, volume, ex);
    }
  }

  lemma NamesOfOne(name: string)
    ensures Names([name]) == {name}
  {
    assert [name][0] in Names([name]);
  }

  /** getDefaultMountOptions of a server, from the list of its additional options. */
  method ServerDefaults(additional: string, ex: Exclusives) returns (defaults: MountOptions)
    ensures fresh(defaults.custom) && ConflictFree(ex, defaults.Value())
    ensures forall k :: k in defaults.Value() ==> k in Parse(additional)
    ensures ConflictFree(ex, Parse(additional)) ==> defaults.Value() == Over(map[], Parse(additional), ex)
  {
    var empty := DefaultOptions();
    var more := NewOptionsFromString(additional);
    ghost var order;
    defaults, order := MergedWith(empty, more, ex);
    MergeKeepsConflictFree(map[], order, [], ex);
    MergeAddsNothing(map[], order, ex);
    if ConflictFree(ex, Parse(additional)) {
      MergeConsistent(map[], more.Value(), ex, order);
    }
  }

  lemma {:induction false} MergeAddsNothing(m: Options, order: seq<MountOption>, ex: Exclusives)
    ensures forall k :: k in MergeInOrder(m, order, ex) ==>
              k in m || exists i :: 0 <= i < |order| && order[i].option == k
  {
    if order != [] {
      var front := order[..|order| - 1];
      MergeAddsNothing(m, front, ex);
      forall k | k in MergeInOrder(m, order, ex)
        ensures k in m || exists i :: 0 <= i < |order| && order[i].option == k
      {
        if k != order[|order| - 1].option && k !in m {
          var i :| 0 <= i < |front| && front[i].option == k;
          assert order[i].option == k;
        }
      }
    }
  }

  /** A parsed list sets only names that its entries start with. */
  lemma {:induction false} ParsedNames(parts: seq<string>, k: string)
    requires k in ParseAll(parts)
    ensures exists i :: 0 <= i < |parts| && ParseOption(TrimSpace(parts[i])).option == k
  {
    var front, last := parts[..|parts| - 1], parts[|parts| - 1];
    if ParseOption(TrimSpace(last)).option != k {
      ParsedNames(front, k);
      var i :| 0 <= i < |front| && ParseOption(TrimSpace(front[i])).option == k;
      assert front[i] == parts[i];
    }
  }

  /** A flag that is one entry of a list and needs no trimming. */
  predicate Bare(s: string)
  {
    s != "" && !IsSpace(s[0]) && !IsSpace(s[|s| - 1]) && ',' !in s && '=' !in s
  }

  lemma ParseBare(s: string)
    requires Bare(s)
    ensures ParseOption(TrimSpace(s)) == MountOption(s, "")
  {
    ParseFlag(s);
  }

  /** Two flags joined by a comma parse to those two names and no other. */
  lemma ParseTwoFlags(a: string, b: string, k: string)
    requires Bare(a) && Bare(b) && k != a && k != b
    ensures k !in Parse(a + "," + b)
  {
    SplitWithoutSeparator(a, ',');
    SplitWithoutSeparator(b, ',');
    SplitAround(a, ',', b);
    assert Split(a + "," + b, ',') == [a, b];
    ParseBare(a);
    ParseBare(b);
    if k in ParseAll([a, b]) {
      ParsedNames([a, b], k);
    }
  }

  /** The node server's defaults, 'writecache' and 'sync_on_close', do not ask for 'rw'. */
  lemma NodeDefaultsAreNotReadWrite()
    ensures "rw" !in Parse("writecache" + "," + "sync_on_close")
  {
    assert WRITE_CACHE == "writecache" && SYNC_ON_CLOSE == "sync_on_close" && READ_WRITE == "rw";
    ParseTwoFlags(WRITE_CACHE, SYNC_ON_CLOSE, READ_WRITE);
  }

  /** Exclusivity and read-only over the whole pipeline: for every volume context, flags,
      annotations and iteration orders, the options handed to the mounter hold at most one
      member of each exclusive set; a read-only request yields 'ro', and never 'rw' unless
      the defaults ask for it; and sources that do not contradict themselves give exactly
      Published. */
  method PublishOptions(additional: string, req: Request, client: Client, ex: Exclusives)
    returns (mountOpts: MountOptions)
    ensures fresh(mountOpts.custom)
    ensures ConflictFree(ex, mountOpts.Value())
    ensures req.readOnly ==> READ_ONLY in mountOpts.Value()
    ensures req.readOnly && READ_WRITE !in Parse(additional) ==> READ_WRITE !in mountOpts.Value()
    ensures Consistent(additional, req, ex) ==> mountOpts.Value() == Published(additional, req, client, ex)
  {
    var volume := FromContextAndFlags(req, client, ex);
    volume := ApplyOverrides(req, volume, ex);
    if req.readOnly {
      RequestReadOnly(volume, ex);
    }
    var defaults := ServerDefaults(additional, ex);
    mountOpts := MergeUnder(defaults, volume, ex);
  }

  /** MountUnderlyingFS: the defaults go under the volume's options. */
  method MergeUnder(defaults: MountOptions, volume: MountOptions, ex: Exclusives) returns (mountOpts: MountOptions)
    requires ConflictFree(ex, defaults.Value()) && ConflictFree(ex, volume.Value()) && volume.exclude == [""]
    ensures fresh(mountOpts.custom) && ConflictFree(ex, mountOpts.Value())
    ensures mountOpts.Value() == Over(defaults.Value(), volume.Value(), ex) - {""}
  {
    ghost var order;
    mountOpts, order := MergedWith(defaults, volume, ex);
    MergeKeepsConflictFree(defaults.Value(), order, volume.exclude, ex);
    MergeIsOver(defaults.Value(), volume.Value(), volume.exclude, ex, order);
    NamesOfOne("");
  }

  // ----- the pipeline as a stack of sources

  function EntrySource(part: string): Source
  {
    if IsRemoval(part) then Drop(ParseOption(TrimSpace(part)[1..]).option) else Add(Addition(part))
  }

  function EntrySources(parts: seq<string>): seq<Source>
  {
    seq(|parts|, i requires 0 <= i < |parts| => EntrySource(parts[i]))
  }

  function OverrideSources(override: string): seq<Source>
  {
    if override == "" then [] else EntrySources(Split(override, ','))
  }

  function ReadOnlySources(readOnly: bool): seq<Source>
  {
    if readOnly then [Add(Only(READ_ONLY)), Drop(READ_WRITE)] else []
  }

  /** Volume context, mount flags, PVC override, pod override and the read-only request, in
      this order. */
  function Sources(req: Request, client: Client, ex: Exclusives): seq<Source>
  {
    [Add(ContextOptions(req, client, ex)), Add(Parse(Join(req.flags, ',')))]
    + OverrideSources(req.pvc) + OverrideSources(req.pod) + ReadOnlySources(req.readOnly)
  }

  lemma {:induction false} ModifyIsStacking(m: Options, parts: seq<string>, ex: Exclusives)
    ensures ModifyAll(m, parts, ex) == Stacked(m, EntrySources(parts), ex)
    decreases |parts|
  {
    if parts != [] {
      ModifyIsStacking(m, parts[..|parts| - 1], ex);
      assert EntrySources(parts)[..|parts| - 1] == EntrySources(parts[..|parts| - 1]);
    }
  }

  lemma OverrideIsStacking(m: Options, override: string, ex: Exclusives)
    ensures Overridden(m, override, ex) == Stacked(m, OverrideSources(override), ex)
  {
    if override != "" {
      ModifyIsStacking(m, Split(override, ','), ex);
    }
  }

  lemma OverEmpty(m: Options, ex: Exclusives)
    ensures Over(map[], m, ex) == m
  {
  }

  lemma StackTwo(m: Options, a: Source, b: Source, ex: Exclusives)
    ensures Stacked(m, [a, b], ex) == ApplySource(ApplySource(m, a, ex), b, ex)
  {
    StackedConcat(m, [a], [b], ex);
    assert [a] + [b] == [a, b];
    StackOne(m, a, ex);
    StackOne(ApplySource(m, a, ex), b, ex);
  }

  lemma StackOne(m: Options, a: Source, ex: Exclusives)
    ensures Stacked(m, [a], ex) == ApplySource(m, a, ex)
  {
    var none: seq<Source> := [];
    assert [a][..0] == none;
    assert Stacked(m, none, ex) == m;
  }

  /** The volume's options are its sources, one after another. */
  lemma VolumeOptionsAreStacked(req: Request, client: Client, ex: Exclusives)
    ensures VolumeOptions(req, client, ex) == Stacked(map[], Sources(req, client, ex), ex)
  {
    var context, flags := ContextOptions(req, client, ex), Parse(Join(req.flags, ','));
    var first, pvc, pod := [Add(context), Add(flags)], OverrideSources(req.pvc), OverrideSources(req.pod);
    OverEmpty(context, ex);
    StackTwo(map[], Add(context), Add(flags), ex);
    var fromFlags := Over(context, flags, ex);
    var fromPvc := Overridden(fromFlags, req.pvc, ex);
    OverrideIsStacking(fromFlags, req.pvc, ex);
    OverrideIsStacking(fromPvc, req.pod, ex);
    StackTwo(Overridden(fromPvc, req.pod, ex), Add(Only(READ_ONLY)), Drop(READ_WRITE), ex);
    StackedConcat(map[], first, pvc, ex);
    StackedConcat(map[], first + pvc, pod, ex);
    StackedConcat(map[], first + pvc + pod, ReadOnlySources(req.readOnly), ex);
  }

  /** No source drops an option that the defaults hold or conflict with. */
  predicate DropsAreForeign(defaults: Options, sources: seq<Source>, ex: Exclusives)
  {
    forall i :: 0 <= i < |sources| && sources[i].Drop? ==> Foreign(defaults, sources[i].name, ex)
  }

  /** Defaults merged under the finished volume options are the same as defaults, volume
      context, flags, PVC, pod and read-only request applied one after another, when conflicts
      are transitive and what is dropped is foreign to the defaults. */
  lemma PublishingIsStacking(defaults: string, req: Request, client: Client, ex: Exclusives)
    requires TransitiveConflicts(ex) && DropsAreForeign(Parse(defaults), Sources(req, client, ex), ex)
    ensures Published(defaults, req, client, ex) == Stacked(Parse(defaults), Sources(req, client, ex), ex) - {""}
  {
    OverEmpty(Parse(defaults), ex);
    VolumeOptionsAreStacked(req, client, ex);
    DefaultsUnderneath(Parse(defaults), Sources(req, client, ex), ex);
  }

  // ----- who has the last word

  /** The pod's override comes after everything else of a volume: what it removes is gone and
      what it sets is set, unless the request is read-only. */
  lemma PodHasTheLastWord(req: Request, client: Client, ex: Exclusives, o: MountOption)
    requires Printable(o) && !req.readOnly
    ensures req.pod == "-" + PrintOption(o) ==> o.option !in VolumeOptions(req, client, ex)
    ensures req.pod == "+" + PrintOption(o) ==>
              o.option in VolumeOptions(req, client, ex) && VolumeOptions(req, client, ex)[o.option] == o
  {
    var before := Overridden(Over(ContextOptions(req, client, ex), Parse(Join(req.flags, ',')), ex), req.pvc, ex);
    MinusRemoves(before, o, ex);
    PlusAdds(before, o, ex);
  }

  /** A read-only request has the very last word. */
  lemma ReadOnlyIsLast(req: Request, client: Client, ex: Exclusives)
    requires req.readOnly
    ensures "ro" in VolumeOptions(req, client, ex) && "rw" !in VolumeOptions(req, client, ex)
    ensures VolumeOptions(req, client, ex)["ro"] == MountOption("ro", "")
  {
    assert READ_ONLY == "ro" && READ_WRITE == "rw";
  }

  /** The PVC's override comes after context and flags. */
  lemma PvcComesAfterFlags(req: Request, client: Client, ex: Exclusives, o: MountOption)
    requires Printable(o) && !req.readOnly && req.pod == ""
    ensures req.pvc == "-" + PrintOption(o) ==> o.option !in VolumeOptions(req, client, ex)
    ensures req.pvc == "+" + PrintOption(o) ==>
              o.option in VolumeOptions(req, client, ex) && VolumeOptions(req, client, ex)[o.option] == o
  {
    var before := Over(ContextOptions(req, client, ex), Parse(Join(req.flags, ',')), ex);
    MinusRemoves(before, o, ex);
    PlusAdds(before, o, ex);
  }

  /** Flags come after the volume context, and the volume's options after the defaults. */
  lemma LaterSourcesWin(defaults: string, req: Request, client: Client, ex: Exclusives, k: string)
    ensures !req.readOnly && req.pvc == req.pod == "" && k in Parse(Join(req.flags, ',')) ==>
              k in VolumeOptions(req, client, ex) && VolumeOptions(req, client, ex)[k] == Parse(Join(req.flags, ','))[k]
    ensures k in VolumeOptions(req, client, ex) && k != "" ==>
              k in Published(defaults, req, client, ex)
              && Published(defaults, req, client, ex)[k] == VolumeOptions(req, client, ex)[k]
  {
  }

  /** Of what CreateVolume stored, the node uses everything but the three options that cannot
      be given this way. */
  lemma StoredContextIsUsed(m: Options, client: Client)
    requires AllPrintable(m - {SYNC_ON_CLOSE, CONTAINER_NAME})
    ensures Pruned(Parse(AsVolumeContext(m)), client) == m - {"sync_on_close", "container_name", "ro"}
  {
    VolumeContextRoundTrip(m);
    PrunedTwice(m, client);
  }

  lemma PrunedTwice(m: Options, client: Client)
    ensures Pruned(m - {SYNC_ON_CLOSE, CONTAINER_NAME}, client) == m - {"sync_on_close", "container_name", "ro"}
  {
    assert SYNC_ON_CLOSE == "sync_on_close" && CONTAINER_NAME == "container_name" && READ_ONLY == "ro";
    DropThree(m, SYNC_ON_CLOSE, CONTAINER_NAME, READ_ONLY);
    var rest := m - {SYNC_ON_CLOSE, CONTAINER_NAME};
    assert rest - {SYNC_ON_CLOSE} == rest;
  }

  lemma DropThree(m: Options, a: string, b: string, c: string)
    ensures m - {a, b} - {c} - {b} == m - {a, b, c}
  {
  }

  /** Pruning drops three names, and the first of them only if the cluster does not take it. */
  lemma PrunedExactly(m: Options, client: Client, k: string)
    ensures k in Pruned(m, client) <==>
              k in m && k != "ro" && k != "container_name" && (k == "sync_on_close" ==> client == Some(true))
    ensures k in Pruned(m, client) ==> Pruned(m, client)[k] == m[k]
  {
  }

  // ----- SELinux

  /** Switching SELinux on sets two options and keeps the rest; off, it takes one away. */
  lemma SelinuxChangesExactly(m: Options, k: string)
    ensures k in Selinux(m, true) <==> k in m || k == "fscontext" || k == "acl"
    ensures k in Selinux(m, true) && k != "fscontext" && k != "acl" ==> Selinux(m, true)[k] == m[k]
    ensures Selinux(m, true)["fscontext"].value == "\"system_u:object_r:wekafs_csi_volume_t:s0\""
    ensures Selinux(m, true)["acl"].value == ""
    ensures k in Selinux(m, false) <==> k in m && k != "fscontext"
    ensures k in Selinux(m, false) ==> Selinux(m, false)[k] == m[k]
  {
  }

  /** setSelinux bypasses the exclusive sets: the mounter's options stay exclusive exactly
      when the two options it adds do not conflict with each other or with the rest. */
  lemma SelinuxIsExclusiveExactly(m: Options, ex: Exclusives)
    requires ConflictFree(ex, m)
    ensures ConflictFree(ex, Selinux(m, false))
    ensures ConflictFree(ex, Selinux(m, true)) <==>
              && !Conflict(ex, ACL, FSCONTEXT)
              && !Displaced(ex, m, ACL)
              && !Displaced(ex, m, FSCONTEXT)
  {
    var r := Selinux(m, true);
    assert ACL in r && FSCONTEXT in r;
    ConflictIsSymmetric(ex, ACL, FSCONTEXT);
    forall a, b
      ensures Conflict(ex, a, b) <==> Conflict(ex, b, a)
    {
      ConflictIsSymmetric(ex, a, b);
    }
  }
}
