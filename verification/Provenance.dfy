/** What identifiers keep: every constructor yields an identifier that denotes the
    volume it built, and chains of snapshots, restores and clones stay on the first
    volume's filesystem and directory. */
module Provenance {
  import opened Text
  import opened Paths
  import opened Ids

  /** A CSI name whose kept part puts no ':' into an object name. */
  predicate NameIsSafe(name: string)
  {
    ':' !in AsciiPart(name, MAX_HASH_LENGTH)
  }

  /** What a blank-volume request must satisfy, by the branch it takes. */
  predicate BlankRequestIsSafe(cfg: Config, name: string, volumeType: string, fsName: string)
  {
    if fsName == "" then
      (volumeType == "" || |Split(volumeType, '/')| == 2) && Plain(cfg.volumePrefix) && NameIsSafe(name)
    else
      Plain(fsName) && (volumeType == DIR_V1 || NameIsSafe(name))
  }

  lemma TwoFields(a: string, b: string)
    requires '/' !in a && '/' !in b
    ensures |Split(a + "/" + b, '/')| == 2
  {
    SplitAround(a, '/', b);
    SplitWithoutSeparator(a, '/');
    SplitWithoutSeparator(b, '/');
  }

  lemma KnownTypesHaveTwoFields()
    ensures |Split(UNIFIED, '/')| == |Split(DIR_V1, '/')| == |Split(UNIFIED_SNAP, '/')| == 2
  {
    UnifiedHasTwoFields();
    DirHasTwoFields();
    SnapHasTwoFields();
  }

  lemma UnifiedHasTwoFields()
    ensures |Split(UNIFIED, '/')| == 2
  {
    TypeHasTwoFields(UNIFIED, 4);
  }

  lemma DirHasTwoFields()
    ensures |Split(DIR_V1, '/')| == 2
  {
    TypeHasTwoFields(DIR_V1, 3);
  }

  lemma SnapHasTwoFields()
    ensures |Split(UNIFIED_SNAP, '/')| == 2
  {
    TypeHasTwoFields(UNIFIED_SNAP, 8);
  }

  /** A type with its only slash at a known place. */
  lemma TypeHasTwoFields(t: string, i: nat)
    requires i < |t| && t[i] == '/' && '/' !in t[..i] && '/' !in t[i + 1..]
    ensures |Split(t, '/')| == 2
  {
    TwoFields(t[..i], t[i + 1..]);
    assert t == t[..i] + "/" + t[i + 1..];
  }

  /** A type that is not of the form a/b never gives a filesystem identifier that
      can be read back. */
  lemma FilesystemVolumeRebuilds(cfg: Config, t: string, fs: string)
    requires fs != ""
    ensures var v := Volume(VolumeId(t, fs, "", ""), fs, "", "", "");
            SameVolume(VolumeFromId(cfg, v.id), v) <==> |Split(t, '/')| == 2 && Plain(fs)
  {
    var v := Volume(VolumeId(t, fs, "", ""), fs, "", "", "");
    if |Split(t, '/')| == 2 {
      RebuildsExactlyWhenPlain(cfg, v, t);
    } else {
      SlicedIsPlain(v.id);
      if Plain(fs) {
        SplitVolumeId(t, fs, "", "");
      }
    }
  }

  lemma DirectoryVolumeRebuilds(cfg: Config, fs: string, inner: string)
    ensures var v := Volume(VolumeId(DIR_V1, fs, "", inner), fs, "", "", inner);
            SameVolume(VolumeFromId(cfg, v.id), v) <==> Plain(fs)
  {
    KnownTypesHaveTwoFields();
    RebuildsExactlyWhenPlain(cfg, Volume(VolumeId(DIR_V1, fs, "", inner), fs, "", "", inner), DIR_V1);
  }

  /** NewVolumeFromId of a blank volume's identifier gives the same volume exactly
      when the request is safe. */
  lemma BlankVolumeRebuilds(h: Hashes, cfg: Config, client: Client, name: string, volumeType: string, fsName: string)
    requires h.Valid()
    requires BlankVolume(h, cfg, client, name, volumeType, fsName).Success?
    ensures var v := BlankVolume(h, cfg, client, name, volumeType, fsName).value;
            SameVolume(VolumeFromId(cfg, v.id), v) <==> BlankRequestIsSafe(cfg, name, volumeType, fsName)
  {
    ObjectNameBaseIsPlain(h, name);
    if fsName == "" {
      var t := if volumeType == "" then UNIFIED else volumeType;
      FilesystemVolumeRebuilds(cfg, t, cfg.volumePrefix + ObjectNameBase(h, name));
      KnownTypesHaveTwoFields();
    } else if volumeType == DIR_V1 {
      DirectoryVolumeRebuilds(cfg, fsName, InnerPathForDir(h, cfg.dynamicVolPath, name));
    } else {
      SnapshotBackedRebuilds(h, cfg, name, fsName, "");
    }
  }

  /** The same for a volume restored from a snapshot. */
  lemma RestoredVolumeRebuilds(h: Hashes, cfg: Config, client: Client, name: string, snapshotId: string,
                               idIsValid: bool, source: Lookup)
    requires h.Valid()
    requires RestoreVolume(h, cfg, client, name, snapshotId, idIsValid, source).Success?
    ensures var v := RestoreVolume(h, cfg, client, name, snapshotId, idIsValid, source).value;
            SameVolume(VolumeFromId(cfg, v.id), v) <==> NameIsSafe(name)
  {
    SlicedIsPlain(snapshotId);
    SnapshotBackedRebuilds(h, cfg, name, SliceFilesystem(snapshotId), SliceInnerPath(snapshotId));
  }

  /** The same for a cloned volume. */
  lemma ClonedVolumeRebuilds(h: Hashes, cfg: Config, client: Client, name: string, sourceId: string, fsName: string,
                             idIsValid: bool, exists_: bool)
    requires h.Valid()
    requires CloneVolume(h, cfg, client, name, sourceId, fsName, idIsValid, exists_).Success?
    ensures var v := CloneVolume(h, cfg, client, name, sourceId, fsName, idIsValid, exists_).value;
            SameVolume(VolumeFromId(cfg, v.id), v) <==> NameIsSafe(name)
  {
    SlicedIsPlain(sourceId);
    SnapshotBackedRebuilds(h, cfg, name, SliceFilesystem(sourceId), SliceInnerPath(sourceId));
  }

  lemma SnapshotBackedRebuilds(h: Hashes, cfg: Config, name: string, fs: string, inner: string)
    requires h.Valid()
    ensures var v := SnapshotBackedVolume(h, cfg, name, fs, inner);
            SameVolume(VolumeFromId(cfg, v.id), v) <==> Plain(fs) && NameIsSafe(name)
  {
    var v := SnapshotBackedVolume(h, cfg, name, fs, inner);
    KnownTypesHaveTwoFields();
    ObjectNameBaseIsPlain(h, name);
    RebuildsExactlyWhenPlain(cfg, v, UNIFIED);
  }

  lemma SplitSnapshotMiddle(fs: string, hash: string, integrity: string)
    requires ':' !in fs && ':' !in integrity
    ensures Split(fs + ":" + hash + ":" + integrity, ':') == [fs] + Split(hash, ':') + [integrity]
  {
    SplitMiddle(fs, hash + ":" + integrity);
    SplitAround(hash, ':', integrity);
    SplitWithoutSeparator(integrity, ':');
    assert fs + ":" + hash + ":" + integrity == fs + ":" + (hash + ":" + integrity);
  }

  /** Appending an inner path to a head appends its fields. */
  lemma SplitTail(head: string, inner: string)
    requires inner == "" || inner[0] == '/'
    ensures Split(head + inner, '/') == Split(head, '/') + if inner == "" then [] else Split(inner[1..], '/')
  {
    if inner == "" {
      assert head + inner == head;
    } else {
      SplitAround(head, '/', inner[1..]);
      assert head + inner == head + "/" + inner[1..];
    }
  }

  /** A snapshot identifier, field by field. */
  lemma SplitSnapshotId(t: string, fs: string, hash: string, integrity: string, inner: string)
    requires |Split(t, '/')| == 2 && '/' !in fs && '/' !in hash && '/' !in integrity
    requires inner == "" || inner[0] == '/'
    ensures var slices := Split(SnapshotId(t, fs, hash, integrity, inner), '/');
            && |slices| >= 3
            && slices[2] == fs + ":" + hash + ":" + integrity
            && slices[3..] == if inner == "" then [] else Split(inner[1..], '/')
  {
    var middle := fs + ":" + hash + ":" + integrity;
    SplitHead(t, middle);
    SplitTail(t + "/" + middle, inner);
    assert SnapshotId(t, fs, hash, integrity, inner) == t + "/" + middle + inner;
  }

  /** A sliced inner path is empty or starts with a slash. */
  lemma SlicesOfSnapshotId(t: string, fs: string, hash: string, integrity: string, inner: string)
    requires |Split(t, '/')| == 2 && Plain(fs) && '/' !in hash && Plain(integrity)
    requires inner == "" || inner[0] == '/'
    ensures var id := SnapshotId(t, fs, hash, integrity, inner);
            && SliceFilesystem(id) == fs
            && SliceInnerPath(id) == inner
            && (SliceSnapshotField(id, 1) == hash && SliceSnapshotField(id, 2) == integrity <==> ':' !in hash)
  {
    var id := SnapshotId(t, fs, hash, integrity, inner);
    SplitSnapshotId(t, fs, hash, integrity, inner);
    SplitSnapshotMiddle(fs, hash, integrity);
    if inner != "" {
      JoinSplit(inner[1..], '/');
      assert |Split(id, '/')| > 3;
    }
    if ':' !in hash {
      SplitWithoutSeparator(hash, ':');
    } else {
      FieldsHoldNoSeparator(hash, ':');
    }
  }

  /** NewSnapshotFromId gives back exactly the snapshot that was created, field by
      field, if and only if the snapshot's name is safe. */
  lemma SnapshotRebuilds(h: Hashes, cfg: Config, name: string, sourceId: string)
    requires h.Valid()
    ensures var s := SnapshotOfVolume(h, cfg, name, sourceId);
            && (SnapshotFromId(cfg, s.id) == s <==> NameIsSafe(name))
            && SliceFilesystem(s.id) == SliceFilesystem(sourceId)
            && SliceInnerPath(s.id) == SliceInnerPath(sourceId)
  {
    var s := SnapshotOfVolume(h, cfg, name, sourceId);
    SlicedIsPlain(sourceId);
    ObjectNameBaseIsPlain(h, name);
    assert Plain(h.b32(name + ":" + sourceId));
    KnownTypesHaveTwoFields();
    SlicesOfSnapshotId(UNIFIED_SNAP, s.fs, s.nameHash, s.integrityId, s.innerPath);
  }

  // ----- chains

  /** One derivation of a volume: through a snapshot of it, or as a clone. */
  datatype Op =
    | SnapshotAndRestore(snapshotName: string, name: string, source: Lookup)
    | Clone(name: string, fsName: string)

  function Derive(h: Hashes, cfg: Config, client: Client, v: Volume, op: Op): Result<Volume>
  {
    match op
    case SnapshotAndRestore(snapshotName, name, source) =>
      RestoreVolume(h, cfg, client, name, SnapshotOfVolume(h, cfg, snapshotName, v.id).id, true, source)
    case Clone(name, fsName) =>
      CloneVolume(h, cfg, client, name, v.id, fsName, true, true)
  }

  function DeriveAll(h: Hashes, cfg: Config, client: Client, v: Volume, ops: seq<Op>): Result<Volume>
    decreases |ops|
  {
    if ops == [] then Success(v)
    else
      var w :- Derive(h, cfg, client, v, ops[0]);
      DeriveAll(h, cfg, client, w, ops[1..])
  }

  /** The directory a volume is rooted in, repeated slashes ignored. */
  function Directory(v: Volume): seq<string>
  {
    Segments(Split(v.innerPath, '/'))
  }

  /** The volume's fields are the ones its identifier denotes. */
  predicate Denotes(cfg: Config, v: Volume)
  {
    SliceFilesystem(v.id) == v.fs && Directory(VolumeFromId(cfg, v.id)) == Directory(v)
  }

  /** Every volume the driver prints an identifier for is denoted by it, whatever the
      CSI name: a colon in the access point does not disturb filesystem or path. */
  lemma PrintedVolumesAreDenoted(cfg: Config, v: Volume, t: string)
    requires |Split(t, '/')| == 2 && Plain(v.fs) && '/' !in v.accessPoint
    requires v.id == VolumeId(t, v.fs, v.accessPoint, v.innerPath)
    ensures Denotes(cfg, v)
  {
    SliceInvertsVolumeId(t, v.fs, v.accessPoint, v.innerPath);
    LeadingSlash(v.innerPath);
  }

  lemma SnapshotBackedIsDenoted(h: Hashes, cfg: Config, name: string, fs: string, inner: string)
    requires h.Valid() && Plain(fs)
    ensures Denotes(cfg, SnapshotBackedVolume(h, cfg, name, fs, inner))
  {
    KnownTypesHaveTwoFields();
    ObjectNameBaseIsPlain(h, name);
    PrintedVolumesAreDenoted(cfg, SnapshotBackedVolume(h, cfg, name, fs, inner), UNIFIED);
  }

  lemma DeriveKeepsOrigin(h: Hashes, cfg: Config, client: Client, v: Volume, op: Op)
    requires h.Valid() && Denotes(cfg, v)
    requires Derive(h, cfg, client, v, op).Success?
    ensures var w := Derive(h, cfg, client, v, op).value;
            Denotes(cfg, w) && w.fs == v.fs && Directory(w) == Directory(v)
  {
    SlicedIsPlain(v.id);
    SnapshotBackedIsDenoted(h, cfg, op.name, v.fs, SliceInnerPath(v.id));
    if op.SnapshotAndRestore? {
      SnapshotRebuilds(h, cfg, op.snapshotName, v.id);
    }
  }

  /** Provenance: through any finite chain, every volume stays on the filesystem and
      in the directory of the first, although each re-parse adds a slash. */
  lemma {:induction false} ChainKeepsOrigin(h: Hashes, cfg: Config, client: Client, v: Volume, ops: seq<Op>)
    requires h.Valid() && Denotes(cfg, v)
    requires DeriveAll(h, cfg, client, v, ops).Success?
    ensures var w := DeriveAll(h, cfg, client, v, ops).value;
            Denotes(cfg, w) && w.fs == v.fs && Directory(w) == Directory(v)
    decreases |ops|
  {
    if ops != [] {
      DeriveKeepsOrigin(h, cfg, client, v, ops[0]);
      ChainKeepsOrigin(h, cfg, client, Derive(h, cfg, client, v, ops[0]).value, ops[1..]);
    }
  }

  /** What puts a blank volume on the filesystem its identifier names. */
  predicate BlankIsPlain(cfg: Config, name: string, volumeType: string, fsName: string)
  {
    if fsName == "" then
      (volumeType == "" || |Split(volumeType, '/')| == 2) && Plain(cfg.volumePrefix) && NameIsSafe(name)
    else
      Plain(fsName)
  }

  lemma {:induction false} SegmentsHold(parts: seq<string>, x: string)
    requires x in parts && x != ""
    ensures Segments(parts) != []
  {
    if parts[0] == "" {
      assert parts == [parts[0]] + parts[1..];
      SegmentsHold(parts[1..], x);
    }
  }

  /** The inner path of an identifier, as a directory. */
  lemma SlicedDirectory(id: string)
    requires |Split(id, '/')| > 3
    ensures Segments(Split(SliceInnerPath(id), '/')) == Segments(Split(id, '/')[3..])
  {
    var rest := Split(id, '/')[3..];
    FieldsHoldNoSeparator(id, '/');
    SplitJoin(rest, '/');
    LeadingSlash(Join(rest, '/'));
  }

  lemma NoDirectory()
    ensures Segments(Split("", '/')) == []
  {
    var none: seq<string> := [];
    assert Split("", '/') == [""] && [""][1..] == none;
    assert Segments(none) == none;
  }

  lemma LongTypeIsNotDenoted(cfg: Config, t: string, fs: string)
    requires fs != "" && Plain(fs) && |Split(t, '/')| != 2
    ensures !Denotes(cfg, Volume(VolumeId(t, fs, "", ""), fs, "", "", ""))
  {
    var id := VolumeId(t, fs, "", "");
    SplitVolumeId(t, fs, "", "");
    if |Split(t, '/')| > 2 {
      var rest := Split(id, '/')[3..];
      assert rest[|rest| - 1] == fs;
      SegmentsHold(rest, fs);
      SlicedDirectory(id);
      NoDirectory();
    }
  }

  lemma FilesystemIsDenotedExactly(cfg: Config, t: string, fs: string)
    requires fs != ""
    ensures Denotes(cfg, Volume(VolumeId(t, fs, "", ""), fs, "", "", "")) <==> |Split(t, '/')| == 2 && Plain(fs)
  {
    var v := Volume(VolumeId(t, fs, "", ""), fs, "", "", "");
    SlicedIsPlain(v.id);
    if Plain(fs) {
      if |Split(t, '/')| == 2 {
        PrintedVolumesAreDenoted(cfg, v, t);
      } else {
        LongTypeIsNotDenoted(cfg, t, fs);
      }
    }
  }

  lemma PrintedIsDenotedExactly(cfg: Config, v: Volume, t: string)
    requires |Split(t, '/')| == 2 && '/' !in v.accessPoint
    requires v.id == VolumeId(t, v.fs, v.accessPoint, v.innerPath)
    ensures Denotes(cfg, v) <==> Plain(v.fs)
  {
    SlicedIsPlain(v.id);
    if Plain(v.fs) {
      PrintedVolumesAreDenoted(cfg, v, t);
    }
  }

  /** A blank volume of any of the three kinds is on the filesystem and in the directory that
      its identifier names exactly when the request makes a plain filesystem name. */
  lemma BlankIsDenotedExactly(h: Hashes, cfg: Config, client: Client, name: string, volumeType: string, fsName: string)
    requires h.Valid() && BlankVolume(h, cfg, client, name, volumeType, fsName).Success?
    ensures Denotes(cfg, BlankVolume(h, cfg, client, name, volumeType, fsName).value)
            <==> BlankIsPlain(cfg, name, volumeType, fsName)
  {
    var v := BlankVolume(h, cfg, client, name, volumeType, fsName).value;
    ObjectNameBaseIsPlain(h, name);
    KnownTypesHaveTwoFields();
    if fsName == "" {
      FilesystemIsDenotedExactly(cfg, if volumeType == "" then UNIFIED else volumeType, v.fs);
    } else {
      PrintedIsDenotedExactly(cfg, v, if volumeType == DIR_V1 then DIR_V1 else UNIFIED);
    }
  }

  /** Provenance from the first volume the driver made. */
  lemma ChainFromBlank(h: Hashes, cfg: Config, client: Client, name: string, volumeType: string, fsName: string,
                       ops: seq<Op>)
    requires h.Valid() && BlankVolume(h, cfg, client, name, volumeType, fsName).Success?
    requires BlankIsPlain(cfg, name, volumeType, fsName)
    requires DeriveAll(h, cfg, client, BlankVolume(h, cfg, client, name, volumeType, fsName).value, ops).Success?
    ensures var v := BlankVolume(h, cfg, client, name, volumeType, fsName).value;
            var w := DeriveAll(h, cfg, client, v, ops).value;
            w.fs == v.fs && Directory(w) == Directory(v) && SliceFilesystem(w.id) == v.fs
  {
    BlankIsDenotedExactly(h, cfg, client, name, volumeType, fsName);
    ChainKeepsOrigin(h, cfg, client, BlankVolume(h, cfg, client, name, volumeType, fsName).value, ops);
  }

  /** Each clone of a directory volume carries one more leading slash than its
      source's identifier, so the literal path is not kept. */
  lemma ClonesAddSlashes(h: Hashes, cfg: Config, name: string, fs: string, inner: string)
    requires h.Valid() && Plain(fs) && inner != ""
    ensures SliceInnerPath(SnapshotBackedVolume(h, cfg, name, fs, inner).id) == "/" + inner
  {
    KnownTypesHaveTwoFields();
    ObjectNameBaseIsPlain(h, name);
    SliceInvertsVolumeId(UNIFIED, fs, ObjectNameBase(h, name), inner);
  }

  // ----- the two directory-volume classifications

  /** The guard of validateAndReserveCapacity: a directory that is not on a snapshot. */
  predicate Reservable(v: Volume)
  {
    v.HasInnerPath() && !v.OnSnapshot()
  }

  /** The filter of refreshFromKubernetesLocked on a volume handle. */
  predicate Confirmable(id: string)
  {
    SliceFilesystem(id) != "" && SliceInnerPath(id) != "" && ':' !in id
  }

  /** Reservations and PVs are matched one to one: guard and filter accept the same
      generated identifiers, under the same filesystem key, exactly when no inner
      path holds a colon. */
  lemma ClassificationsAgree(t: string, fs: string, ap: string, inner: string)
    requires |Split(t, '/')| == 2 && ':' !in t && Plain(fs) && '/' !in ap && fs != ""
    ensures var v := Volume(VolumeId(t, fs, ap, inner), fs, "", ap, inner);
            && SliceFilesystem(v.id) == v.fs
            && (Reservable(v) == Confirmable(v.id) <==> !(Reservable(v) && ':' in inner))
  {
    SliceInvertsVolumeId(t, fs, ap, inner);
    ColonsOfVolumeId(t, fs, ap, inner);
  }

  /** The same for the volume that an expansion rebuilds from any handle: guard and filter
      disagree exactly when the guard takes a handle with a colon or without a filesystem. */
  lemma RebuiltClassificationsAgree(cfg: Config, id: string)
    ensures var v := VolumeFromId(cfg, id);
            Reservable(v) == Confirmable(id) <==> !(Reservable(v) && (':' in id || SliceFilesystem(id) == ""))
  {
    var slices := Split(id, '/');
    if |slices| >= 3 && ':' !in id {
      FieldsOf(id, '/');
      assert ':' !in slices[2];
      SplitWithoutSeparator(slices[2], ':');
    }
  }

  /** The filter accepts exactly the directories that are not on a snapshot and whose path
      holds no colon. */
  lemma ConfirmableExactly(t: string, fs: string, ap: string, inner: string)
    requires |Split(t, '/')| == 2 && ':' !in t && Plain(fs) && '/' !in ap && fs != ""
    ensures var id := VolumeId(t, fs, ap, inner);
            SliceFilesystem(id) == fs && (Confirmable(id) <==> inner != "" && ap == "" && ':' !in inner)
  {
    SliceInvertsVolumeId(t, fs, ap, inner);
    ColonsOfVolumeId(t, fs, ap, inner);
  }

  lemma ColonsOfVolumeId(t: string, fs: string, ap: string, inner: string)
    requires ':' !in t && ':' !in fs
    ensures ':' in VolumeId(t, fs, ap, inner) <==> ap != "" || ':' in inner
  {
    var id := VolumeId(t, fs, ap, inner);
    if ap != "" {
      assert id[|t + "/" + fs|] == ':';
    } else if ':' in inner {
      var i :| 0 <= i < |inner| && inner[i] == ':';
      assert id[|id| - |inner| + i] == ':';
    }
  }

  /** For the directory volumes the driver itself names, with its configured folder. */
  lemma DirVolumesAreConfirmable(h: Hashes, cfg: Config, client: Client, name: string, fsName: string)
    requires h.Valid() && Plain(fsName) && fsName != ""
    ensures var v := BlankVolume(h, cfg, client, name, DIR_V1, fsName).value;
            && SliceFilesystem(v.id) == v.fs
            && (Confirmable(v.id) <==> v.HasInnerPath() && ':' !in v.innerPath)
  {
    KnownTypesHaveTwoFields();
    var v := BlankVolume(h, cfg, client, name, DIR_V1, fsName).value;
    ClassificationsAgree(DIR_V1, fsName, "", v.innerPath);
  }
}
