/** Where things are and what they are called: the path of a volume inside its filesystem, the
    directory and object names made from CSI names, and when requests are refused. */
module Places {
  import opened Text
  import opened Paths
  import opened Ids
  import opened Provenance

  // ----- paths

  /** The elements of a path, repeated slashes ignored. */
  function Elements(path: string): seq<string>
  {
    Segments(Split(path, '/'))
  }

  function AllElements(paths: seq<string>): seq<string>
  {
    if paths == [] then [] else Elements(paths[0]) + AllElements(paths[1..])
  }

  lemma {:induction false} ElementsOfJoin(paths: seq<string>)
    requires paths != []
    ensures Elements(Join(paths, '/')) == AllElements(paths)
    decreases |paths|
  {
    var rest := paths[1..];
    if rest == [] {
      assert AllElements(rest) == [] && Elements(paths[0]) + [] == Elements(paths[0]);
    } else {
      ElementsOfJoin(rest);
      SplitAround(paths[0], '/', Join(rest, '/'));
      SegmentsConcat(Split(paths[0], '/'), Split(Join(rest, '/'), '/'));
    }
  }

  lemma {:induction false} SegmentsAreNames(parts: seq<string>)
    requires forall i :: 0 <= i < |parts| ==> '/' !in parts[i]
    ensures forall i :: 0 <= i < |Segments(parts)| ==> Segments(parts)[i] != "" && '/' !in Segments(parts)[i]
  {
    if parts != [] {
      SegmentsAreNames(parts[1..]);
    }
  }

  lemma {:induction false} SegmentsOfNames(names: seq<string>)
    requires forall i :: 0 <= i < |names| ==> names[i] != ""
    ensures Segments(names) == names
  {
    if names != [] {
      SegmentsOfNames(names[1..]);
      assert names == [names[0]] + names[1..];
    }
  }

  lemma ElementsAreNames(path: string)
    ensures forall i :: 0 <= i < |Elements(path)| ==> Elements(path)[i] != "" && '/' !in Elements(path)[i]
  {
    FieldsHoldNoSeparator(path, '/');
    SegmentsAreNames(Split(path, '/'));
  }

  /** The path of a list of names from the root. */
  function FromRoot(names: seq<string>): string
  {
    "/" + Join(names, '/')
  }

  lemma ElementsFromRoot(names: seq<string>)
    requires forall i :: 0 <= i < |names| ==> names[i] != "" && '/' !in names[i]
    ensures Elements(FromRoot(names)) == names
  {
    LeadingSlash(Join(names, '/'));
    if names == [] {
      NoDirectory();
    } else {
      SplitJoin(names, '/');
      SegmentsOfNames(names);
    }
  }

  /** filepath.Join from the root: the elements of all parts, with dots resolved. */
  lemma JoinFromRoot(paths: seq<string>)
    requires paths != [] && paths[0] != "" && paths[0][0] == '/'
    ensures JoinPath(paths) == FromRoot(Resolve(AllElements(paths), true, []))
  {
    var joined := Join(paths, '/');
    assert joined != "" && joined[0] == '/';
    ResolveIgnoresEmpty(Split(joined, '/'), true, []);
    ElementsOfJoin(paths);
  }

  predicate NoDots(names: seq<string>)
  {
    forall i :: 0 <= i < |names| ==> names[i] != "." && names[i] != ".."
  }

  lemma AllElementsAreNames(paths: seq<string>)
    ensures forall i :: 0 <= i < |AllElements(paths)| ==> AllElements(paths)[i] != "" && '/' !in AllElements(paths)[i]
  {
    if paths != [] {
      ElementsAreNames(paths[0]);
      AllElementsAreNames(paths[1..]);
    }
  }

  lemma JoinOfNames(paths: seq<string>)
    requires paths != [] && paths[0] != "" && paths[0][0] == '/' && NoDots(AllElements(paths))
    ensures JoinPath(paths) == FromRoot(AllElements(paths)) && Elements(JoinPath(paths)) == AllElements(paths)
  {
    var names := AllElements(paths);
    AllElementsAreNames(paths);
    JoinFromRoot(paths);
    ResolveKeepsNames(names, true, []);
    SegmentsOfNames(names);
    assert [] + names == names;
    ElementsFromRoot(names);
  }

  // ----- where a volume lives

  /** The names that lead to a volume from the root of its filesystem. */
  function Place(v: Volume): seq<string>
  {
    (if v.accessPoint != "" then [".snapshots"] + Elements(v.accessPoint) else []) + Elements(v.innerPath)
  }

  lemma OneName(x: string)
    requires x != "" && '/' !in x
    ensures Elements(x) == [x]
  {
    SplitWithoutSeparator(x, '/');
    SegmentsOfNames([x]);
  }

  lemma RootHasNoElements()
    ensures Elements("/") == [] && Elements("") == []
  {
    NoDirectory();
    LeadingSlash("");
    assert "/" + "" == "/";
  }

  function SnapshotParts(v: Volume): seq<string>
  {
    if v.OnSnapshot() then [SNAPSHOTS_SUBDIR, v.accessPoint] else []
  }

  function InnerParts(v: Volume): seq<string>
  {
    if v.HasInnerPath() then [v.innerPath] else []
  }

  lemma SnapshotElements(v: Volume)
    ensures AllElements(SnapshotParts(v))
            == if v.accessPoint != "" then [".snapshots"] + Elements(v.accessPoint) else []
  {
    OneName(SNAPSHOTS_SUBDIR);
    AllElementsOfTwo(SNAPSHOTS_SUBDIR, v.accessPoint);
  }

  lemma InnerElements(v: Volume)
    ensures AllElements(InnerParts(v)) == Elements(v.innerPath)
  {
    RootHasNoElements();
    AllElementsOfOne(v.innerPath);
  }

  lemma ElementsOfParts(v: Volume)
    ensures AllElements(PathParts(v)) == Place(v)
  {
    assert PathParts(v) == ["/"] + SnapshotParts(v) + InnerParts(v);
    BelowRoot(SnapshotParts(v), InnerParts(v));
    SnapshotElements(v);
    InnerElements(v);
  }

  lemma BelowRoot(b: seq<string>, c: seq<string>)
    ensures AllElements(["/"] + b + c) == AllElements(b) + AllElements(c)
  {
    AllElementsOfThree("/", b, c);
    RootHasNoElements();
    assert [] + AllElements(b) == AllElements(b);
  }

  lemma AllElementsOfThree(x: string, b: seq<string>, c: seq<string>)
    ensures AllElements([x] + b + c) == Elements(x) + AllElements(b) + AllElements(c)
  {
    AllElementsConcat([x] + b, c);
    AllElementsConcat([x], b);
    AllElementsOfOne(x);
  }

  lemma Regroup(p: seq<string>, q: seq<string>, r: seq<string>)
    ensures p + (q + r) == p + q + r
  {
  }

  lemma {:induction false} AllElementsConcat(a: seq<string>, b: seq<string>)
    ensures AllElements(a + b) == AllElements(a) + AllElements(b)
  {
    if a == [] {
      assert a + b == b;
    } else {
      AllElementsConcat(a[1..], b);
      AllElementsFirst(a, b, AllElements(a[1..]), AllElements(b));
    }
  }

  lemma AllElementsFirst(a: seq<string>, b: seq<string>, p: seq<string>, q: seq<string>)
    requires a != [] && p == AllElements(a[1..]) && p + q == AllElements(a[1..] + b)
    ensures AllElements(a + b) == AllElements(a) + q
  {
    assert (a + b)[1..] == a[1..] + b;
    Regroup(Elements(a[0]), p, q);
  }

  lemma AllElementsOfOne(x: string)
    ensures AllElements([x]) == Elements(x)
  {
    var none: seq<string> := [];
    assert [x][1..] == none;
    assert AllElements(none) == none;
  }

  lemma AllElementsOfTwo(x: string, y: string)
    ensures AllElements([x, y]) == Elements(x) + Elements(y)
  {
    assert [x, y][1..] == [y];
    AllElementsOfOne(y);
  }

  /** Where a volume lives, for every volume: below its snapshot if it is on one, then down its
      inner path, with dots resolved. */
  lemma RelativePathIs(v: Volume)
    ensures RelativePath(v) == FromRoot(Resolve(Place(v), true, []))
  {
    ElementsOfParts(v);
    JoinFromRoot(PathParts(v));
  }

  /** Without dots, the path is exactly the access point below ".snapshots" and the inner path
      below that. */
  lemma VolumeLivesAt(v: Volume)
    requires '/' !in v.accessPoint && NoDots(Place(v))
    ensures RelativePath(v) == FromRoot(Place(v)) && Elements(RelativePath(v)) == Place(v)
    ensures Place(v) == (if v.accessPoint != "" then [".snapshots", v.accessPoint] else []) + Elements(v.innerPath)
  {
    ElementsOfParts(v);
    JoinOfNames(PathParts(v));
    PlaceIs(v);
  }

  lemma PlaceIs(v: Volume)
    requires '/' !in v.accessPoint
    ensures Place(v) == (if v.accessPoint != "" then [".snapshots", v.accessPoint] else []) + Elements(v.innerPath)
  {
    if v.accessPoint != "" {
      OneName(v.accessPoint);
      assert [".snapshots"] + [v.accessPoint] == [".snapshots", v.accessPoint];
    }
  }

  // ----- names

  /** The characters that names keep. */
  lemma AllowedExactly(c: char)
    ensures Allowed(c) <==>
              || 'a' <= c <= 'z' || 'A' <= c <= 'Z' || '0' <= c <= '9'
              || c == '-' || c == '.' || c == '_' || c == ':'
  {
  }

  lemma SameTails(a: string, x: string, b: string, y: string)
    requires |x| == |y| && a + "-" + x == b + "-" + y
    ensures a == b && x == y
  {
    var s := a + "-" + x;
    assert |a| == |b|;
    assert a == s[..|a|] && b == s[..|b|] && x == s[|a| + 1..] && y == s[|b| + 1..];
  }

  /** Two CSI names give one object name exactly when they agree in the first twelve kept
      characters and in the first twelve characters of their hashes. */
  lemma ObjectNamesCoincideExactly(h: Hashes, name: string, other: string)
    requires h.Valid()
    ensures ObjectNameBase(h, name) == ObjectNameBase(h, other) <==>
              AsciiPart(name, 12) == AsciiPart(other, 12) && h.b32(name)[..12] == h.b32(other)[..12]
    ensures |ObjectNameBase(h, name)| <= 25
  {
    var a, x, b, y := AsciiPart(name, 12), h.b32(name)[..12], AsciiPart(other, 12), h.b32(other)[..12];
    assert ObjectNameBase(h, name) == a + "-" + x && ObjectNameBase(h, other) == b + "-" + y;
    if a + "-" + x == b + "-" + y {
      SameTails(a, x, b, y);
    }
  }

  /** Two snapshots have one identifier only if filesystem, inner path and the hashes of their
      names and of name and source agree. */
  lemma SnapshotIdsTellApart(h: Hashes, cfg: Config, name: string, source: string, name': string, source': string)
    requires h.Valid() && NameIsSafe(name) && NameIsSafe(name')
    requires SnapshotOfVolume(h, cfg, name, source).id == SnapshotOfVolume(h, cfg, name', source').id
    ensures SliceFilesystem(source) == SliceFilesystem(source') && SliceInnerPath(source) == SliceInnerPath(source')
    ensures h.b32(name)[..12] == h.b32(name')[..12]
    ensures h.b32(name + ":" + source)[..12] == h.b32(name' + ":" + source')[..12]
  {
    SnapshotRebuilds(h, cfg, name, source);
    SnapshotRebuilds(h, cfg, name', source');
    ObjectNamesCoincideExactly(h, name, name');
  }

  /** An inner path gets the slash that it lacks. */
  lemma SnapshotIdAddsSlash(t: string, fs: string, hash: string, integrity: string, inner: string)
    requires inner != "" && inner[0] != '/'
    ensures SnapshotId(t, fs, hash, integrity, inner) == SnapshotId(t, fs, hash, integrity, "/" + inner)
  {
  }

  /** unicode.IsSpace, by code points. */
  lemma SpacesExactly(c: char)
    ensures var n := c as int;
            IsSpace(c) <==>
              || 9 <= n <= 13 || n == 32 || n == 0x85 || n == 0xA0 || n == 0x1680 || 0x2000 <= n <= 0x200A
              || n == 0x2028 || n == 0x2029 || n == 0x202F || n == 0x205F || n == 0x3000
  {
  }

  // ----- directories

  function Folder(h: Hashes, name: string): string
  {
    AsciiPart(name, 64) + "-" + h.hex(name)
  }

  lemma FolderIsName(h: Hashes, name: string)
    requires h.Valid()
    ensures '/' !in Folder(h, name) && |Folder(h, name)| >= 41
  {
    FilterHoldsNoSlash(name);
    assert Plain(h.hex(name));
  }

  lemma CleanRelative(path: string)
    requires path != "" && path[0] != '/' && NoDots(Elements(path)) && Elements(path) != []
    ensures Elements(Clean(path)) == Elements(path)
  {
    var names := Elements(path);
    ElementsAreNames(path);
    ResolveIgnoresEmpty(Split(path, '/'), false, []);
    ResolveKeepsNames(names, false, []);
    SegmentsOfNames(names);
    assert [] + names == names;
    SplitJoin(names, '/');
    assert Join(names, '/') != "" by {
      JoinIsNotEmpty(names);
    }
    assert "" + Join(names, '/') == Join(names, '/');
  }

  lemma JoinIsNotEmpty(names: seq<string>)
    requires names != [] && names[0] != ""
    ensures Join(names, '/') != ""
  {
  }

  /** filepath.Join of parts without dots has the elements of the parts. */
  lemma JoinHasElements(paths: seq<string>)
    requires paths != [] && paths[0] != "" && NoDots(AllElements(paths)) && AllElements(paths) != []
    ensures Elements(JoinPath(paths)) == AllElements(paths)
  {
    if paths[0][0] == '/' {
      JoinOfNames(paths);
    } else {
      ElementsOfJoin(paths);
      JoinStartsWith(paths);
      CleanRelative(Join(paths, '/'));
    }
  }

  lemma JoinStartsWith(paths: seq<string>)
    requires paths != [] && paths[0] != ""
    ensures Join(paths, '/') != "" && Join(paths, '/')[0] == paths[0][0]
  {
  }

  /** A directory volume is a folder in the configured directory. */
  lemma DirectoryIsFolder(h: Hashes, dynamicVolPath: string, name: string)
    requires h.Valid() && NoDots(Elements(dynamicVolPath))
    ensures Elements(InnerPathForDir(h, dynamicVolPath, name)) == Elements(dynamicVolPath) + [Folder(h, name)]
  {
    var folder := Folder(h, name);
    FolderIsName(h, name);
    OneName(folder);
    if dynamicVolPath == "" {
      RootHasNoElements();
      LeadingSlash(folder);
    } else {
      AllElementsOfTwo(dynamicVolPath, folder);
      JoinHasElements([dynamicVolPath, folder]);
    }
  }

  /** Two CSI names get one directory exactly when they agree in the first 64 kept characters
      and in their hashes. */
  lemma DirectoriesCoincideExactly(h: Hashes, dynamicVolPath: string, name: string, other: string)
    requires h.Valid() && NoDots(Elements(dynamicVolPath))
    ensures InnerPathForDir(h, dynamicVolPath, name) == InnerPathForDir(h, dynamicVolPath, other) <==>
              AsciiPart(name, 64) == AsciiPart(other, 64) && h.hex(name) == h.hex(other)
  {
    var base := Elements(dynamicVolPath);
    DirectoryIsFolder(h, dynamicVolPath, name);
    DirectoryIsFolder(h, dynamicVolPath, other);
    if InnerPathForDir(h, dynamicVolPath, name) == InnerPathForDir(h, dynamicVolPath, other) {
      assert (base + [Folder(h, name)])[|base|] == (base + [Folder(h, other)])[|base|];
      SameTails(AsciiPart(name, 64), h.hex(name), AsciiPart(other, 64), h.hex(other));
    }
  }

  // ----- the text of identifiers

  /** What the identifiers of the three kinds of volumes look like. */
  lemma VolumeIdentifierText(h: Hashes, cfg: Config, client: Client, name: string, volumeType: string, fsName: string)
    requires h.Valid() && BlankVolume(h, cfg, client, name, volumeType, fsName).Success?
    ensures var v := BlankVolume(h, cfg, client, name, volumeType, fsName).value;
            && (fsName == "" ==> v.id == (if volumeType == "" then "weka/v2" else volumeType) + "/" + v.fs)
            && (fsName != "" && volumeType == "dir/v1" ==> v.id == "dir/v1/" + fsName + "/" + v.innerPath)
            && (fsName != "" && volumeType != "dir/v1" ==>
                  v.id == "weka/v2/" + fsName + ":" + v.accessPoint && v.accessPoint == ObjectNameBase(h, name))
  {
    BlankKindExactly(h, cfg, client, name, volumeType, fsName);
    ObjectNameBaseIsPlain(h, name);
    WithoutParts(if volumeType == "" then UNIFIED else volumeType, cfg.volumePrefix + ObjectNameBase(h, name));
    WithInnerPath(DIR_V1, fsName, InnerPathForDir(h, cfg.dynamicVolPath, name));
    WithAccessPoint(UNIFIED, fsName, ObjectNameBase(h, name));
    assert DIR_V1 + "/" == "dir/v1/" && UNIFIED + "/" == "weka/v2/";
  }

  lemma WithoutParts(t: string, fs: string)
    ensures VolumeId(t, fs, "", "") == t + "/" + fs
  {
  }

  lemma WithInnerPath(t: string, fs: string, inner: string)
    requires inner != ""
    ensures VolumeId(t, fs, "", inner) == t + "/" + fs + "/" + inner
  {
  }

  lemma WithAccessPoint(t: string, fs: string, ap: string)
    requires ap != ""
    ensures VolumeId(t, fs, ap, "") == t + "/" + fs + ":" + ap
  {
  }

  /** What the identifier of a snapshot looks like. */
  lemma SnapshotIdentifierText(h: Hashes, cfg: Config, name: string, source: string)
    ensures var s := SnapshotOfVolume(h, cfg, name, source);
            s.id == "wekasnap/v2/" + s.fs + ":" + s.nameHash + ":" + s.integrityId + s.innerPath
  {
    var s := SnapshotOfVolume(h, cfg, name, source);
    SnapshotTail(UNIFIED_SNAP, s.fs, s.nameHash, s.integrityId, s.innerPath);
    assert UNIFIED_SNAP + "/" == "wekasnap/v2/";
  }

  lemma SnapshotTail(t: string, fs: string, hash: string, integrity: string, inner: string)
    requires inner == "" || inner[0] == '/'
    ensures SnapshotId(t, fs, hash, integrity, inner) == t + "/" + fs + ":" + hash + ":" + integrity + inner
  {
  }

  // ----- derivations

  /** A volume can be snapshotted and restored, or cloned, exactly when directory volumes may
      be or it is none, the cluster has the snapshot on that filesystem and read-only, and a
      filesystem the request names is the volume's. */
  lemma DeriveSucceedsExactly(h: Hashes, cfg: Config, client: Client, v: Volume, op: Op)
    requires h.Valid() && client != NoClient && v.id != ""
    ensures Derive(h, cfg, client, v, op).Success? <==>
              && (SliceInnerPath(v.id) == "" || cfg.allowSnapshotsOfDirectoryVolumes)
              && (op.SnapshotAndRestore? ==> op.source == Found(SliceFilesystem(v.id), false))
              && (op.Clone? ==> op.fsName == "" || op.fsName == SliceFilesystem(v.id))
  {
    if op.SnapshotAndRestore? {
      SnapshotRebuilds(h, cfg, op.snapshotName, v.id);
    }
  }

  // ----- refusals

  /** Which blank requests are refused, and why. */
  lemma BlankRefusedExactly(h: Hashes, cfg: Config, client: Client, name: string, volumeType: string, fsName: string)
    ensures var r := BlankVolume(h, cfg, client, name, volumeType, fsName);
            && (r == Failure(InvalidArgument) <==> fsName == "" && volumeType == "dir/v1")
            && (r == Failure(PermissionDenied) <==>
                  fsName == "" && volumeType != "dir/v1" && !cfg.allowAutoFsCreation)
            && (r == Failure(FailedPrecondition) <==>
                  && fsName != "" && volumeType != "dir/v1" && !cfg.alwaysAllowSnapshotVolumes
                  && (client == NoClient || !client.supportsQuotaOnSnapshots))
            && (r.Failure? ==> r.code == InvalidArgument || r.code == PermissionDenied || r.code == FailedPrecondition)
  {
  }

  /** What kind of volume a blank request makes. */
  lemma BlankKindExactly(h: Hashes, cfg: Config, client: Client, name: string, volumeType: string, fsName: string)
    requires h.Valid() && BlankVolume(h, cfg, client, name, volumeType, fsName).Success?
    ensures var v := BlankVolume(h, cfg, client, name, volumeType, fsName).value;
            && (v.OnSnapshot() <==> fsName != "" && volumeType != "dir/v1")
            && (v.HasInnerPath() <==> fsName != "" && volumeType == "dir/v1")
            && (fsName != "" ==> v.fs == fsName)
            && (fsName == "" ==> v.fs == cfg.volumePrefix + ObjectNameBase(h, name))
  {
    ObjectNameBaseIsPlain(h, name);
  }

  /** Which requests from a snapshot are refused, and why; the others stay on the filesystem
      that the cluster names. */
  lemma RestoreRefusedExactly(h: Hashes, cfg: Config, client: Client, name: string, id: string, idIsValid: bool,
                              source: Lookup)
    ensures var r := RestoreVolume(h, cfg, client, name, id, idIsValid, source);
            var forbidden := SliceInnerPath(id) != "" && !cfg.allowSnapshotsOfDirectoryVolumes;
            && (r == Failure(InvalidArgument) <==> client == NoClient || id == "")
            && (r == Failure(NotFound) <==>
                  client != NoClient && id != "" && (!idIsValid || (!forbidden && source == Absent)))
            && (r == Failure(FailedPrecondition) <==>
                  client != NoClient && id != "" && idIsValid && (forbidden || (source.Found? && source.writable)))
            && (r == Failure(Internal) <==>
                  && client != NoClient && id != "" && idIsValid && !forbidden
                  && (source == LookupError
                      || (source.Found? && !source.writable && source.fs != SliceFilesystem(id))))
            && (r.Success? ==> source.Found? && r.value.fs == source.fs && r.value.innerPath == SliceInnerPath(id))
  {
  }

  /** The same for clones. */
  lemma CloneRefusedExactly(h: Hashes, cfg: Config, client: Client, name: string, id: string, fsName: string,
                            idIsValid: bool, exists_: bool)
    ensures var r := CloneVolume(h, cfg, client, name, id, fsName, idIsValid, exists_);
            var forbidden := SliceInnerPath(id) != "" && !cfg.allowSnapshotsOfDirectoryVolumes;
            var bound := client != NoClient && id != "";
            && (r == Failure(NotFound) <==> bound && (!idIsValid || (!forbidden && !exists_)))
            && (r == Failure(FailedPrecondition) <==> bound && idIsValid && forbidden)
            && (r == Failure(InvalidArgument) <==>
                  || !bound
                  || (idIsValid && !forbidden && exists_ && fsName != "" && fsName != SliceFilesystem(id)))
            && (r.Success? ==> r.value.fs == SliceFilesystem(id) && r.value.innerPath == SliceInnerPath(id))
  {
  }
}
