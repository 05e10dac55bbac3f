/** Volume and snapshot identifiers: how they are printed from components and
    sliced back, and the constructors that do so. */
module Ids {
  import opened Text
  import opened Paths

  const DIR_V1: string := "dir/v1"
  const UNIFIED: string := "weka/v2"
  const UNIFIED_SNAP: string := "wekasnap/v2"
  const MAX_HASH_LENGTH: nat := 12
  const SNAPSHOTS_SUBDIR: string := ".snapshots"

  datatype Code = InvalidArgument | PermissionDenied | FailedPrecondition | NotFound | Internal

  datatype Result<+T> = Success(value: T) | Failure(code: Code) {
    predicate IsFailure() { Failure? }
    function PropagateFailure<U>(): Result<U> requires Failure? { Failure(code) }
    function Extract(): T requires Success? { value }
  }

  datatype Volume = Volume(id: string, fs: string, snapshotName: string, accessPoint: string, innerPath: string) {
    predicate HasInnerPath() { innerPath != "" }
    predicate OnSnapshot() { accessPoint != "" }
  }

  datatype Snapshot = Snapshot(id: string, fs: string, nameHash: string, integrityId: string, name: string,
                               innerPath: string)

  /** The separators of identifiers. */
  predicate Plain(s: string)
  {
    '/' !in s && ':' !in s
  }

  /** SHA-1 printed in hexadecimal and in base32. Only the shape of the output is assumed: 40
      hexadecimal and 32 base32 characters, and no separator in either form. */
  datatype Hashes = Hashes(hex: string -> string, b32: string -> string) {
    ghost predicate Valid()
    {
      && (forall s :: Plain(hex(s)))
      && (forall s :: Plain(b32(s)))
      && (forall s :: |hex(s)| == 40 && |b32(s)| == 32)
    }
  }

  datatype Config = Config(volumePrefix: string, snapshotPrefix: string, dynamicVolPath: string,
                           allowAutoFsCreation: bool, alwaysAllowSnapshotVolumes: bool,
                           allowSnapshotsOfDirectoryVolumes: bool)

  // ----- names

  /** The characters a name part may keep: "-.", digits and ':', letters, '_'. */
  predicate Allowed(c: char)
  {
    45 <= c as int <= 46 || 48 <= c as int <= 58 || 65 <= c as int <= 90 || c as int == 95 || 97 <= c as int <= 122
  }

  function Filter(s: string): string
  {
    if s == "" then "" else if Allowed(s[0]) then [s[0]] + Filter(s[1..]) else Filter(s[1..])
  }

  /** The first maxLength allowed characters; the limit is looked at only after a
      character was written, so a limit of zero keeps one. */
  function AsciiPart(s: string, maxLength: nat): string
  {
    var kept := Filter(s);
    var limit := if maxLength == 0 then 1 else maxLength;
    if |kept| <= limit then kept else kept[..limit]
  }

  lemma {:induction false} FilterConcat(a: string, b: string)
    ensures Filter(a + b) == Filter(a) + Filter(b)
  {
    if a == "" {
      assert a + b == b;
    } else {
      FilterConcat(a[1..], b);
      assert (a + b)[1..] == a[1..] + b;
      assert [a[0]] + (Filter(a[1..]) + Filter(b)) == [a[0]] + Filter(a[1..]) + Filter(b);
    }
  }

  /** The loop of getAsciiPart computes AsciiPart. */
  method GetAsciiPart(s: string, maxLength: nat) returns (stripped: string)
    ensures stripped == AsciiPart(s, maxLength)
  {
    stripped := "";
    var i := 0;
    for n := 0 to |s|
      invariant stripped == Filter(s[..n]) && i == |stripped|
      invariant i == 0 || i < maxLength
    {
      assert s[..n + 1] == s[..n] + [s[n]];
      FilterConcat(s[..n], [s[n]]);
      if Allowed(s[n]) {
        stripped := stripped + [s[n]];
        i := i + 1;
        if i >= maxLength {
          assert s == s[..n + 1] + s[n + 1..];
          FilterConcat(s[..n + 1], s[n + 1..]);
          return;
        }
      }
    }
    assert s[..|s|] == s;
  }

  lemma {:induction false} FilterHoldsNoSlash(s: string)
    ensures '/' !in Filter(s)
    ensures ':' in Filter(s) <==> ':' in s
  {
    if s != "" {
      FilterHoldsNoSlash(s[1..]);
    }
  }

  function ObjectNameBase(h: Hashes, name: string): string
  {
    var hash := h.b32(name);
    AsciiPart(name, MAX_HASH_LENGTH) + "-" + (if |hash| <= MAX_HASH_LENGTH then hash else hash[..MAX_HASH_LENGTH])
  }

  function IntegrityId(h: Hashes, name: string, sourceVolumeId: string): string
  {
    var hash := h.b32(name + ":" + sourceVolumeId);
    if |hash| <= MAX_HASH_LENGTH then hash else hash[..MAX_HASH_LENGTH]
  }

  /** A name base holds no slash, and holds a colon exactly when the kept part of
      the CSI name does. */
  lemma ObjectNameBaseIsPlain(h: Hashes, name: string)
    requires h.Valid()
    ensures '/' !in ObjectNameBase(h, name) && ObjectNameBase(h, name) != ""
    ensures ':' in ObjectNameBase(h, name) <==> ':' in AsciiPart(name, MAX_HASH_LENGTH)
  {
    FilterHoldsNoSlash(name);
    assert Plain(h.b32(name));
  }

  function InnerPathForDir(h: Hashes, dynamicVolPath: string, name: string): string
  {
    var folder := AsciiPart(name, 64) + "-" + h.hex(name);
    if dynamicVolPath != "" then JoinPath([dynamicVolPath, folder]) else "/" + folder
  }

  // ----- printing and slicing

  function VolumeId(volumeType: string, fs: string, accessPoint: string, innerPath: string): string
  {
    volumeType + "/" + fs
    + (if accessPoint != "" then ":" + accessPoint else "")
    + (if innerPath != "" then "/" + innerPath else "")
  }

  function SnapshotId(snapshotType: string, fs: string, nameHash: string, integrityId: string,
                      innerPath: string): string
  {
    snapshotType + "/" + fs + ":" + nameHash + ":" + integrityId
    + (if innerPath == "" then "" else if innerPath[0] == '/' then innerPath else "/" + innerPath)
  }

  function SliceFilesystem(id: string): string
  {
    var slices := Split(id, '/');
    if |slices| < 3 then "" else Split(slices[2], ':')[0]
  }

  function SliceAccessPoint(id: string): string
  {
    var slices := Split(id, '/');
    if |slices| < 3 then ""
    else
      var fields := Split(slices[2], ':');
      if |fields| < 2 then "" else fields[1]
  }

  function SliceInnerPath(id: string): string
  {
    var slices := Split(id, '/');
    if |slices| <= 3 then "" else "/" + Join(slices[3..], '/')
  }

  function SliceSnapshotField(id: string, n: nat): string
    requires 1 <= n <= 2
  {
    var slices := Split(id, '/');
    if |slices| < 3 then ""
    else
      var fields := Split(slices[2], ':');
      if |fields| < 3 then "" else fields[n]
  }

  function SliceSnapshotName(prefix: string, id: string): string
  {
    var base := SliceAccessPoint(id);
    if base != "" then prefix + base else ""
  }

  lemma SplitHead(t: string, middle: string)
    requires '/' !in middle
    ensures Split(t + "/" + middle, '/') == Split(t, '/') + [middle]
  {
    SplitWithoutSeparator(middle, '/');
    SplitAround(t, '/', middle);
  }

  function Middle(fs: string, ap: string): string
  {
    if ap != "" then fs + ":" + ap else fs
  }

  lemma VolumeIdFromMiddle(t: string, fs: string, ap: string, inner: string)
    ensures VolumeId(t, fs, ap, inner) == t + "/" + Middle(fs, ap) + if inner != "" then "/" + inner else ""
  {
  }

  lemma SplitWithInner(head: string, inner: string)
    ensures Split(head + if inner != "" then "/" + inner else "", '/')
            == Split(head, '/') + if inner != "" then Split(inner, '/') else []
  {
    if inner != "" {
      SplitAround(head, '/', inner);
      assert head + ("/" + inner) == head + "/" + inner;
    } else {
      assert head + "" == head;
    }
  }

  /** The identifier, field by field. */
  lemma SplitVolumeId(t: string, fs: string, ap: string, inner: string)
    requires '/' !in fs && '/' !in ap
    ensures Split(VolumeId(t, fs, ap, inner), '/')
            == Split(t, '/') + [Middle(fs, ap)] + (if inner != "" then Split(inner, '/') else [])
  {
    VolumeIdFromMiddle(t, fs, ap, inner);
    SplitHead(t, Middle(fs, ap));
    SplitWithInner(t + "/" + Middle(fs, ap), inner);
  }

  lemma SplitMiddle(fs: string, ap: string)
    requires ':' !in fs
    ensures Split(fs, ':') == [fs]
    ensures Split(fs + ":" + ap, ':') == [fs] + Split(ap, ':')
  {
    SplitWithoutSeparator(fs, ':');
    SplitAround(fs, ':', ap);
  }

  /** Components come back from an identifier exactly when they hold no separator. */
  lemma SliceInvertsVolumeId(t: string, fs: string, ap: string, inner: string)
    requires |Split(t, '/')| == 2
    ensures var id := VolumeId(t, fs, ap, inner);
            SliceFilesystem(id) == fs && SliceAccessPoint(id) == ap <==> Plain(fs) && Plain(ap)
    ensures Plain(fs) && '/' !in ap ==>
              && SliceFilesystem(VolumeId(t, fs, ap, inner)) == fs
              && SliceInnerPath(VolumeId(t, fs, ap, inner)) == if inner == "" then "" else "/" + inner
  {
    var id := VolumeId(t, fs, ap, inner);
    SlicedIsPlain(id);
    if Plain(fs) && '/' !in ap {
      SplitVolumeId(t, fs, ap, inner);
      SplitMiddle(fs, ap);
      if inner != "" {
        assert Split(id, '/')[3..] == Split(inner, '/');
        JoinSplit(inner, '/');
      }
      if ':' !in ap {
        SplitWithoutSeparator(ap, ':');
      }
    }
  }

  lemma SlicedIsPlain(id: string)
    ensures Plain(SliceFilesystem(id)) && Plain(SliceAccessPoint(id))
  {
    var slices := Split(id, '/');
    if |slices| >= 3 {
      FieldsHoldNoSeparator(id, '/');
      FieldsHoldNoSeparator(slices[2], ':');
      FieldsOf(slices[2], ':');
    }
  }

  // ----- constructors

  /** NewVolumeFromId, after its regular-expression validation. */
  function VolumeFromId(cfg: Config, id: string): Volume
  {
    Volume(id, SliceFilesystem(id), SliceSnapshotName(cfg.volumePrefix, id), SliceAccessPoint(id), SliceInnerPath(id))
  }

  /** What the API client of a request offers; None is a request without secrets. */
  datatype Client = NoClient | Client(supportsQuotaOnSnapshots: bool)

  /** NewVolumeForBlankVolumeRequest */
  function BlankVolume(h: Hashes, cfg: Config, client: Client, name: string, volumeType: string,
                       fsName: string): Result<Volume>
  {
    if fsName == "" then
      if volumeType == DIR_V1 then Failure(InvalidArgument)
      else if !cfg.allowAutoFsCreation then Failure(PermissionDenied)
      else
        var t := if volumeType == "" then UNIFIED else volumeType;
        var fs := cfg.volumePrefix + ObjectNameBase(h, name);
        Success(Volume(VolumeId(t, fs, "", ""), fs, "", "", ""))
    else if volumeType == DIR_V1 then
      var inner := InnerPathForDir(h, cfg.dynamicVolPath, name);
      Success(Volume(VolumeId(DIR_V1, fsName, "", inner), fsName, "", "", inner))
    else if client == NoClient && !cfg.alwaysAllowSnapshotVolumes then Failure(FailedPrecondition)
    else if client != NoClient && !client.supportsQuotaOnSnapshots && !cfg.alwaysAllowSnapshotVolumes then
      Failure(FailedPrecondition)
    else
      Success(SnapshotBackedVolume(h, cfg, name, fsName, ""))
  }

  /** A writable-snapshot volume named after the CSI name, over an existing path. */
  function SnapshotBackedVolume(h: Hashes, cfg: Config, name: string, fs: string, inner: string): Volume
  {
    var ap := ObjectNameBase(h, name);
    Volume(VolumeId(UNIFIED, fs, ap, inner), fs, cfg.volumePrefix + ap, ap, inner)
  }

  /** NewSnapshotFromVolumeCreate: only the identifier of the source volume is used. */
  function SnapshotOfVolume(h: Hashes, cfg: Config, name: string, sourceId: string): Snapshot
  {
    var fs, hash, integrity, inner :=
      SliceFilesystem(sourceId), ObjectNameBase(h, name), IntegrityId(h, name, sourceId), SliceInnerPath(sourceId);
    var id := SnapshotId(UNIFIED_SNAP, fs, hash, integrity, inner);
    Snapshot(id, fs, hash, integrity, cfg.snapshotPrefix + hash, inner)
  }

  /** NewSnapshotFromId, after its regular-expression validation. */
  function SnapshotFromId(cfg: Config, id: string): Snapshot
  {
    Snapshot(id, SliceFilesystem(id), SliceSnapshotField(id, 1), SliceSnapshotField(id, 2),
             cfg.snapshotPrefix + SliceSnapshotField(id, 1), SliceInnerPath(id))
  }

  /** What the cluster answers about a source object. */
  datatype Lookup = LookupError | Absent | Found(fs: string, writable: bool)

  /** NewVolumeForCreateFromSnapshotRequest; idIsValid is the outcome of the
      regular-expression check on the snapshot identifier. */
  function RestoreVolume(h: Hashes, cfg: Config, client: Client, name: string, snapshotId: string,
                         idIsValid: bool, source: Lookup): Result<Volume>
  {
    if client == NoClient || snapshotId == "" then Failure(InvalidArgument)
    else if !idIsValid then Failure(NotFound)
    else
      var snap := SnapshotFromId(cfg, snapshotId);
      if snap.innerPath != "" && !cfg.allowSnapshotsOfDirectoryVolumes then Failure(FailedPrecondition)
      else if source == LookupError then Failure(Internal)
      else if source == Absent then Failure(NotFound)
      else if source.writable then Failure(FailedPrecondition)
      else if SliceFilesystem(snapshotId) != source.fs then Failure(Internal)
      else Success(SnapshotBackedVolume(h, cfg, name, source.fs, snap.innerPath))
  }

  /** NewVolumeForCloneVolumeRequest */
  function CloneVolume(h: Hashes, cfg: Config, client: Client, name: string, sourceId: string, fsName: string,
                       idIsValid: bool, sourceExists: bool): Result<Volume>
  {
    if client == NoClient || sourceId == "" then Failure(InvalidArgument)
    else if !idIsValid then Failure(NotFound)
    else
      var source := VolumeFromId(cfg, sourceId);
      if source.HasInnerPath() && !cfg.allowSnapshotsOfDirectoryVolumes then Failure(FailedPrecondition)
      else if !sourceExists then Failure(NotFound)
      else if fsName != "" && SliceFilesystem(sourceId) != fsName then Failure(InvalidArgument)
      else Success(SnapshotBackedVolume(h, cfg, name, SliceFilesystem(sourceId), source.innerPath))
  }

  /** GetRelativePath: where the volume lives inside its filesystem. */
  function RelativePath(v: Volume): string
  {
    JoinPath(PathParts(v))
  }

  function PathParts(v: Volume): seq<string>
  {
    ["/"]
    + (if v.OnSnapshot() then [SNAPSHOTS_SUBDIR, v.accessPoint] else [])
    + (if v.HasInnerPath() then [v.innerPath] else [])
  }

  // ----- rebuilding from an identifier

  /** The two values are the same volume: same filesystem, snapshot, kind and place. */
  predicate SameVolume(a: Volume, b: Volume)
  {
    && a.id == b.id
    && a.fs == b.fs
    && a.accessPoint == b.accessPoint
    && a.snapshotName == b.snapshotName
    && a.OnSnapshot() == b.OnSnapshot()
    && a.HasInnerPath() == b.HasInnerPath()
    && RelativePath(a) == RelativePath(b)
  }

  lemma {:induction false} JoinLast(front: seq<string>, last: string, c: char)
    requires front != []
    ensures Join(front + [last], c) == Join(front, c) + [c] + last
  {
    if |front| > 1 {
      JoinLast(front[1..], last, c);
      assert (front + [last])[1..] == front[1..] + [last];
    }
  }

  /** Paths that differ only in repeated slashes of their last element are one path. */
  lemma JoinPathIgnoresSlashes(front: seq<string>, a: string, b: string)
    requires front != [] && front[0] != "" && front[0][0] == '/'
    requires Segments(Split(a, '/')) == Segments(Split(b, '/'))
    ensures JoinPath(front + [a]) == JoinPath(front + [b])
  {
    var base := Join(front, '/');
    assert base != "" && base[0] == '/';
    forall x | x == a || x == b
      ensures Resolve(Split(base + "/" + x, '/'), true, [])
              == Resolve(Segments(Split(base, '/')) + Segments(Split(a, '/')), true, [])
    {
      SplitAround(base, '/', x);
      ResolveIgnoresEmpty(Split(base + "/" + x, '/'), true, []);
      SegmentsConcat(Split(base, '/'), Split(x, '/'));
    }
    JoinLast(front, a, '/');
    JoinLast(front, b, '/');
  }

  lemma LeadingSlash(p: string)
    ensures Split("/" + p, '/') == [""] + Split(p, '/')
    ensures Segments(Split("/" + p, '/')) == Segments(Split(p, '/'))
  {
    assert ("/" + p)[1..] == p;
    assert ([""] + Split(p, '/'))[1..] == Split(p, '/');
  }

  /** A volume built from plain components is the volume its identifier denotes. */
  lemma RebuildVolume(cfg: Config, v: Volume, t: string)
    requires |Split(t, '/')| == 2 && Plain(v.fs) && Plain(v.accessPoint)
    requires v.id == VolumeId(t, v.fs, v.accessPoint, v.innerPath)
    requires v.snapshotName == if v.accessPoint == "" then "" else cfg.volumePrefix + v.accessPoint
    ensures SameVolume(VolumeFromId(cfg, v.id), v)
  {
    SliceInvertsVolumeId(t, v.fs, v.accessPoint, v.innerPath);
    var w := VolumeFromId(cfg, v.id);
    if v.innerPath != "" {
      LeadingSlash(v.innerPath);
      var front := ["/"] + if v.OnSnapshot() then [SNAPSHOTS_SUBDIR, v.accessPoint] else [];
      JoinPathIgnoresSlashes(front, w.innerPath, v.innerPath);
    }
  }

  /** The volume its identifier denotes is the volume that was built if and only if
      no component holds a separator. */
  lemma RebuildsExactlyWhenPlain(cfg: Config, v: Volume, t: string)
    requires |Split(t, '/')| == 2
    requires v.id == VolumeId(t, v.fs, v.accessPoint, v.innerPath)
    requires v.snapshotName == if v.accessPoint == "" then "" else cfg.volumePrefix + v.accessPoint
    ensures SameVolume(VolumeFromId(cfg, v.id), v) <==> Plain(v.fs) && Plain(v.accessPoint)
  {
    SlicedIsPlain(v.id);
    if Plain(v.fs) && Plain(v.accessPoint) {
      RebuildVolume(cfg, v, t);
    }
  }
}
