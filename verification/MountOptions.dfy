/** MountOptions as the driver holds them: a struct whose customOptions is a shared,
    mutable map. Deriving operations clone the map; merging operations change it. */
module MountOptions {
  import opened Text
  import opened OptionAlgebra
  import opened OptionText

  const READ_ONLY: string := "ro"
  const READ_WRITE: string := "rw"
  const ACL: string := "acl"
  const FSCONTEXT: string := "fscontext"
  const FSCONTEXT_VALUE: string := "\"system_u:object_r:wekafs_csi_volume_t:s0\""

  class OptionMap {
    var options: Options

    constructor (options: Options)
      ensures this.options == options
    {
      this.options := options;
    }
  }

  datatype MountOptions = MountOptions(custom: OptionMap, exclude: seq<string>) {
    function Value(): Options
      reads custom
    {
      custom.options
    }
  }

  /** cloneCustomOptions: a loop over the map, in any order. */
  method CloneCustomOptions(opts: MountOptions) returns (cloned: OptionMap)
    ensures fresh(cloned) && cloned.options == opts.Value()
  {
    cloned := new OptionMap(map[]);
    var rest := opts.custom.options.Keys;
    while rest != {}
      invariant fresh(cloned) && rest <= opts.Value().Keys
      invariant cloned.options == map k | k in opts.Value() && k !in rest :: opts.Value()[k]
      decreases rest
    {
      var k :| k in rest;
      cloned.options := cloned.options[k := opts.custom.options[k]];
      rest := rest - {k};
    }
  }

  method NewOptions(parts: seq<string>, exclude: seq<string>) returns (r: MountOptions)
    ensures fresh(r.custom) && r.Value() == ParseAll(parts) && r.exclude == exclude
  {
    var m := NewMountOptions(parts);
    var custom := new OptionMap(m);
    r := MountOptions(custom, exclude);
  }

  method NewOptionsFromString(s: string) returns (r: MountOptions)
    ensures fresh(r.custom) && r.Value() == Parse(s) && r.exclude == []
  {
    if s == "" {
      r := NewOptions([], []);
    } else {
      r := NewOptions(Split(s, ','), []);
    }
  }

  /** getDefaultMountOptions: no options; the exclude list holds one empty name. */
  method DefaultOptions() returns (r: MountOptions)
    ensures fresh(r.custom) && r.Value() == map[] && r.exclude == [""]
  {
    var custom := new OptionMap(map[]);
    r := MountOptions(custom, [""]);
  }

  function Others(names: seq<string>, name: string): set<string>
  {
    set n | 0 <= n < |names| && names[n] != name :: names[n]
  }

  /** The innermost loop of Merge: drop all members of one exclusive set but one. */
  method DropOthers(opts: MountOptions, names: seq<string>, name: string)
    modifies opts.custom
    ensures opts.Value() == old(opts.Value()) - Others(names, name)
  {
    for j := 0 to |names|
      invariant opts.Value() == old(opts.Value()) - Others(names[..j], name)
    {
      assert names[..j + 1] == names[..j] + [names[j]];
      OthersConcat(names[..j], [names[j]], name);
      if names[j] != name {
        opts.custom.options := opts.custom.options - {names[j]};
      }
    }
    assert names[..|names|] == names;
  }

  lemma OthersConcat(a: seq<string>, b: seq<string>, name: string)
    ensures Others(a + b, name) == Others(a, name) + Others(b, name)
  {
    forall n | 0 <= n < |a + b| && (a + b)[n] != name
      ensures (a + b)[n] in Others(a, name) + Others(b, name)
    {
      assert (a + b)[n] == if n < |a| then a[n] else b[n - |a|];
    }
    forall n | 0 <= n < |a| && a[n] != name
      ensures a[n] in Others(a + b, name)
    {
      assert (a + b)[n] == a[n];
    }
    forall n | 0 <= n < |b| && b[n] != name
      ensures b[n] in Others(a + b, name)
    {
      assert (a + b)[|a| + n] == b[n];
    }
  }

  /** The inner loops of Merge: drop the alternatives of one option. */
  method DropRivals(opts: MountOptions, name: string, ex: Exclusives)
    modifies opts.custom
    ensures opts.Value() == old(opts.Value()) - Rivals(ex, name)
  {
    for i := 0 to |ex|
      invariant opts.Value() == old(opts.Value()) - Rivals(ex[..i], name)
    {
      if name in ex[i] {
        DropOthers(opts, ex[i], name);
      }
      RivalsOneMore(ex, i, name);
    }
    assert ex[..|ex|] == ex;
  }

  lemma RivalsOneMore(ex: Exclusives, i: nat, name: string)
    requires i < |ex|
    ensures Rivals(ex[..i + 1], name) == Rivals(ex[..i], name)
              + if name in ex[i] then Others(ex[i], name) else {}
  {
    var l := Rivals(ex[..i + 1], name);
    var r := Rivals(ex[..i], name)
      + if name in ex[i] then Others(ex[i], name) else {};
    forall x | x in l
      ensures x in r
    {
      var k, j :| 0 <= k < |ex[..i + 1]| && name in ex[..i + 1][k] && 0 <= j < |ex[..i + 1][k]|
        && ex[..i + 1][k][j] != name && ex[..i + 1][k][j] == x;
      if k < i {
        assert ex[..i][k][j] in Rivals(ex[..i], name);
      }
    }
    forall x | x in r
      ensures x in l
    {
      if x in Rivals(ex[..i], name) {
        var k, j :| 0 <= k < |ex[..i]| && name in ex[..i][k] && 0 <= j < |ex[..i][k]|
          && ex[..i][k][j] != name && ex[..i][k][j] == x;
        assert ex[..i + 1][k][j] in l;
      } else {
        var n :| 0 <= n < |ex[i]| && ex[i][n] != name && ex[i][n] == x;
        assert ex[..i + 1][i][n] in l;
      }
    }
  }

  /** The outer loop of Merge, in the order the iteration happens to take. */
  method MergeCustom(opts: MountOptions, other: MountOptions, ex: Exclusives) returns (ghost order: seq<MountOption>)
    requires opts.custom != other.custom
    modifies opts.custom
    ensures Enumerates(order, other.Value())
    ensures opts.Value() == MergeInOrder(old(opts.Value()), order, ex)
  {
    order := [];
    var rest := other.custom.options.Keys;
    while rest != {}
      invariant rest <= other.Value().Keys
      invariant opts.Value() == MergeInOrder(old(opts.Value()), order, ex)
      invariant Enumerates(order, other.Value() - rest)
      decreases rest
    {
      var k :| k in rest;
      var o := other.custom.options[k];
      opts.custom.options := opts.custom.options[o.option := o];
      DropRivals(opts, o.option, ex);
      EnumerateOneMore(order, other.Value(), rest, k);
      MergeInOrderOneMore(old(opts.Value()), order, o, ex);
      order := order + [o];
      rest := rest - {k};
    }
    assert other.Value() - {} == other.Value();
  }

  lemma EnumerateOneMore(order: seq<MountOption>, m: Options, rest: set<string>, k: string)
    requires k in rest && k in m && Enumerates(order, m - rest)
    ensures Enumerates(order + [m[k]], m - (rest - {k}))
  {
    var more := order + [m[k]];
    forall j | j in m - (rest - {k})
      ensures m[j] in more
    {
      if j != k {
        assert (m - rest)[j] in order;
      }
    }
  }

  /** The last loop of Merge. */
  method DropExcluded(opts: MountOptions, exclude: seq<string>)
    modifies opts.custom
    ensures opts.Value() == old(opts.Value()) - Names(exclude)
  {
    for i := 0 to |exclude|
      invariant opts.Value() == old(opts.Value()) - Names(exclude[..i])
    {
      opts.custom.options := opts.custom.options - {exclude[i]};
      NamesOneMore(exclude, i);
    }
    assert exclude[..|exclude|] == exclude;
  }

  /** Merge, in place. */
  method MergeInto(opts: MountOptions, other: MountOptions, ex: Exclusives) returns (ghost order: seq<MountOption>)
    requires opts.custom != other.custom
    modifies opts.custom
    ensures Enumerates(order, other.Value())
    ensures opts.Value() == Merge(old(opts.Value()), order, other.exclude, ex)
  {
    order := MergeCustom(opts, other, ex);
    DropExcluded(opts, other.exclude);
  }

  lemma NamesOneMore(excludes: seq<string>, i: nat)
    requires i < |excludes|
    ensures Names(excludes[..i + 1]) == Names(excludes[..i]) + {excludes[i]}
  {
    assert excludes[..i + 1] == excludes[..i] + [excludes[i]];
    forall x | x in Names(excludes[..i])
      ensures x in Names(excludes[..i + 1])
    {
      var n :| 0 <= n < i && excludes[..i][n] == x;
      assert excludes[..i + 1][n] == x;
    }
    assert excludes[..i + 1][i] in Names(excludes[..i + 1]);
  }

  /** MergedWith: a new map; neither argument changes. */
  method MergedWith(opts: MountOptions, other: MountOptions, ex: Exclusives)
    returns (r: MountOptions, ghost order: seq<MountOption>)
    ensures fresh(r.custom) && r.exclude == opts.exclude
    ensures Enumerates(order, other.Value())
    ensures r.Value() == Merge(opts.Value(), order, other.exclude, ex)
  {
    var cloned := CloneCustomOptions(opts);
    r := MountOptions(cloned, opts.exclude);
    order := MergeInto(r, other, ex);
  }

  /** AddOption: a new map; the receiver does not change. */
  method AddOption(opts: MountOptions, s: string) returns (r: MountOptions)
    ensures fresh(r.custom) && r.exclude == opts.exclude
    ensures r.Value() == opts.Value()[ParseOption(s).option := ParseOption(s)]
  {
    var cloned := CloneCustomOptions(opts);
    var o := ParseOption(s);
    cloned.options := cloned.options[o.option := o];
    r := MountOptions(cloned, opts.exclude);
  }

  /** RemoveOption: a new map; the receiver does not change. */
  method RemoveOption(opts: MountOptions, s: string) returns (r: MountOptions)
    ensures fresh(r.custom) && r.exclude == opts.exclude
    ensures r.Value() == opts.Value() - {ParseOption(s).option}
  {
    var cloned := CloneCustomOptions(opts);
    cloned.options := cloned.options - {ParseOption(s).option};
    r := MountOptions(cloned, opts.exclude);
  }

  function Selinux(m: Options, support: bool): Options
  {
    if support then
      m[FSCONTEXT := MountOption(FSCONTEXT, FSCONTEXT_VALUE)][ACL := MountOption(ACL, "")]
    else m - {FSCONTEXT}
  }

  lemma ParseContext(option: string, value: string)
    requires '=' !in option && '=' !in value && value != ""
    ensures ParseOption(option + "=" + value) == MountOption(option, value)
  {
    ParsePrintOption(MountOption(option, value));
    assert PrintOption(MountOption(option, value)) == option + "=" + value;
  }

  lemma ParseFlag(option: string)
    requires '=' !in option
    ensures ParseOption(option) == MountOption(option, "")
  {
    SplitWithoutSeparator(option, '=');
  }

  /** Files the parsed form of option=value, unless its name is empty. */
  method FileParsed(opts: MountOptions, option: string, value: string)
    requires option != "" && '=' !in option && '=' !in value && value != ""
    modifies opts.custom
    ensures opts.Value() == old(opts.Value())[option := MountOption(option, value)]
  {
    var o := ParseOption(option + "=" + value);
    ParseContext(option, value);
    if o.option != "" {
      opts.custom.options := opts.custom.options[o.option := o];
    }
  }

  /** setOption with a bare name. */
  method SetFlag(opts: MountOptions, option: string)
    requires '=' !in option
    modifies opts.custom
    ensures opts.Value() == old(opts.Value())[option := MountOption(option, "")]
  {
    var o := ParseOption(option);
    ParseFlag(option);
    opts.custom.options := opts.custom.options[o.option := o];
  }

  /** setSelinux for the wekafs transport: in place, whoever shares the map. */
  method SetSelinux(opts: MountOptions, support: bool)
    modifies opts.custom
    ensures opts.Value() == Selinux(old(opts.Value()), support)
  {
    if support {
      FileParsed(opts, FSCONTEXT, FSCONTEXT_VALUE);
      SetFlag(opts, ACL);
    } else {
      opts.custom.options := opts.custom.options - {FSCONTEXT};
    }
  }
}
