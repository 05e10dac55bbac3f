/** Mount points and the keys of reference counts: how they are made from a filesystem, the
    print of its options and a container name, and when two mounts share one. */
module MountPoints {
  import opened Text
  import opened Ids
  import opened MountTable

  /** The mount point of a filesystem with given printed options. */
  function MountPointFor(baseDir: string, b32: string -> string, fs: string, printed: string): string
  {
    baseDir + "/" + AsciiPart(fs, 64) + "-" + b32(fs + ":" + printed)
  }

  function WithContainer(mountPoint: string, container: string): string
  {
    if container != "" then mountPoint + "-" + container else mountPoint
  }

  /** The shape of a hash: 32 characters, none of which separates anything. */
  predicate HashLike(h: string)
  {
    |h| == 32 && '-' !in h && '^' !in h
  }

  ghost predicate Shaped(b32: string -> string)
  {
    forall s :: HashLike(b32(s))
  }

  function Suffix(container: string): string
  {
    if container != "" then "-" + container else ""
  }

  /** Text that can end the part of a mount point before its hash. */
  predicate Between(w: string)
  {
    1 <= |w| <= 32 && w[0] == '-' == w[|w| - 1] && forall i :: 0 <= i < |w| ==> Ids.Allowed(w[i]) && w[i] != ':'
  }

  /** A container name that can pass for a hash followed by the other name. */
  predicate Confusable(c: string, c': string)
  {
    var s, s' := Suffix(c), Suffix(c');
    var d := |s'| - |s|;
    d >= 33 && s'[d..] == s && HashLike(s'[d - 32..d]) && Between(s'[..d - 32])
  }

  lemma ShortNamesAreNotConfusable(c: string, c': string)
    requires |c'| < 32
    ensures !Confusable(c, c')
  {
  }

  function MountHead(baseDir: string, fs: string): string
  {
    baseDir + "/" + AsciiPart(fs, 64) + "-"
  }

  lemma MountPointIs(baseDir: string, b32: string -> string, fs: string, printed: string, container: string)
    ensures WithContainer(MountPointFor(baseDir, b32, fs, printed), container)
            == MountHead(baseDir, fs) + b32(fs + ":" + printed) + Suffix(container)
  {
    var mountPoint := MountPointFor(baseDir, b32, fs, printed);
    assert mountPoint == MountHead(baseDir, fs) + b32(fs + ":" + printed);
    assert mountPoint + "" == mountPoint;
    assert mountPoint + ("-" + container) == mountPoint + "-" + container;
  }

  lemma {:induction false} FilterIsAllowed(s: string)
    ensures forall i :: 0 <= i < |Filter(s)| ==> Ids.Allowed(Filter(s)[i])
  {
    if s != "" {
      FilterIsAllowed(s[1..]);
    }
  }

  lemma KeptPart(fs: string)
    requires ':' !in fs
    ensures var part := AsciiPart(fs, 64);
            |part| <= 64 && forall i :: 0 <= i < |part| ==> Ids.Allowed(part[i]) && part[i] != ':'
  {
    FilterIsAllowed(fs);
    FilterHoldsNoSlash(fs);
  }

  lemma SameLengthTails(head: string, tail: string, head': string, tail': string, suffix: string, suffix': string)
    requires |tail| == |tail'| && |suffix| == |suffix'| && head + tail + suffix == head' + tail' + suffix'
    ensures tail == tail'
  {
    var whole := head + tail + suffix;
    assert |head| == |head'|;
    assert tail == whole[|head|..|head| + |tail|];
    assert tail' == whole[|head'|..|head'| + |tail'|];
  }

  /** A hash cannot reach into the suffix of the other mount point. */
  lemma SuffixesAreFar(head: string, hash: string, s: string, head': string, hash': string, s': string)
    requires head + hash + s == head' + hash' + s' && HashLike(hash) && |hash'| == 32
    requires |s| < |s'| && s'[0] == '-'
    ensures |s'| - |s| >= 33
  {
    var whole := head + hash + s;
    var p := |whole| - |s'|;
    assert whole[p] == s'[0];
    forall i | |head| <= i < |head| + 32
      ensures whole[i] != '-'
    {
      assert whole[i] == hash[i - |head|];
    }
  }

  /** ... and if the suffix is longer by more than that, it holds the hash. */
  lemma SuffixHoldsHash(head: string, hash: string, s: string, head': string, hash': string, s': string)
    requires head + hash + s == head' + hash' + s' && |hash| == 32 == |hash'| && |s'| - |s| >= 33
    requires head != "" && head[|head| - 1] == '-' && s'[0] == '-'
    ensures var d := |s'| - |s|;
            && s'[d..] == s && s'[d - 32..d] == hash
            && |head| == |head'| + d && s'[..d - 32] == head[|head'| + 32..]
            && s'[d - 33] == '-'
  {
    var whole, d, n := head + hash + s, |s'| - |s|, |head'| + 32;
    assert whole[n..] == s';
    assert s'[d..] == whole[n + d..] && whole[n + d..] == s;
    assert s'[d - 32..d] == whole[n + d - 32..n + d] && whole[n + d - 32..n + d] == hash;
    assert s'[..d - 32] == whole[n..n + d - 32] && whole[n..n + d - 32] == head[n..];
    assert s'[d - 33] == s'[..d - 32][d - 33] == head[n..][d - 33] == head[|head| - 1];
  }

  lemma HeadIsBetween(baseDir: string, fs: string, n: nat)
    requires ':' !in fs && |baseDir| + 34 <= n < |MountHead(baseDir, fs)| && MountHead(baseDir, fs)[n] == '-'
    ensures Between(MountHead(baseDir, fs)[n..])
  {
    var head, part := MountHead(baseDir, fs), AsciiPart(fs, 64);
    KeptPart(fs);
    forall i | n <= i < |head|
      ensures Ids.Allowed(head[i]) && head[i] != ':'
    {
      assert i < |head| - 1 ==> head[i] == part[i - |baseDir| - 1];
    }
  }

  lemma LongerSuffixIsConfusable(baseDir: string, fs: string, hash: string, c: string,
                                 fs': string, hash': string, c': string)
    requires MountHead(baseDir, fs) + hash + Suffix(c) == MountHead(baseDir, fs') + hash' + Suffix(c')
    requires HashLike(hash) && HashLike(hash') && ':' !in fs && |Suffix(c)| < |Suffix(c')|
    ensures Confusable(c, c')
  {
    var head, head', s, s' := MountHead(baseDir, fs), MountHead(baseDir, fs'), Suffix(c), Suffix(c');
    SuffixesAreFar(head, hash, s, head', hash', s');
    SuffixHoldsHash(head, hash, s, head', hash', s');
    assert head[|head'| + 32..][0] == s'[..|s'| - |s| - 32][0] == '-';
    HeadIsBetween(baseDir, fs, |head'| + 32);
  }

  /** Mounts of one driver share a mount point only if they are the same filesystem with the
      same options: provided filesystem names hold no ':', container names are not confusable
      and the two hashed strings do not collide. */
  lemma MountPointsAreSeparate(baseDir: string, b32: string -> string, fs: string, printed: string, c: string,
                               fs': string, printed': string, c': string)
    requires Shaped(b32) && ':' !in fs && ':' !in fs' && !Confusable(c, c') && !Confusable(c', c)
    requires b32(fs + ":" + printed) == b32(fs' + ":" + printed') ==> fs + ":" + printed == fs' + ":" + printed'
    requires WithContainer(MountPointFor(baseDir, b32, fs, printed), c)
             == WithContainer(MountPointFor(baseDir, b32, fs', printed'), c')
    ensures fs == fs' && printed == printed'
  {
    var hash, hash' := b32(fs + ":" + printed), b32(fs' + ":" + printed');
    MountPointIs(baseDir, b32, fs, printed, c);
    MountPointIs(baseDir, b32, fs', printed', c');
    if |Suffix(c)| < |Suffix(c')| {
      LongerSuffixIsConfusable(baseDir, fs, hash, c, fs', hash', c');
    } else if |Suffix(c')| < |Suffix(c)| {
      LongerSuffixIsConfusable(baseDir, fs', hash', c', fs, hash, c);
    } else {
      SameLengthTails(MountHead(baseDir, fs), hash, MountHead(baseDir, fs'), hash', Suffix(c), Suffix(c'));
      SplitAtColon(fs, printed, fs', printed');
    }
  }

  lemma SplitAtColon(a: string, x: string, b: string, y: string)
    requires ':' !in a && ':' !in b && a + ":" + x == b + ":" + y
    ensures a == b && x == y
  {
    SplitWithoutSeparator(a, ':');
    SplitWithoutSeparator(b, ':');
    SplitAround(a, ':', x);
    SplitAround(b, ':', y);
    assert Split(a + ":" + x, ':')[0] == a && Split(b + ":" + y, ':')[0] == b;
    assert x == (a + ":" + x)[|a| + 1..] && y == (b + ":" + y)[|b| + 1..];
  }

  /** A key leads back to its mount point, and to the printed options. */
  lemma KeyHoldsMountPoint(mountPoint: string, printed: string)
    requires '^' !in mountPoint
    ensures MountPointOf(mountPoint + "^" + printed) == mountPoint
  {
    SplitAround(mountPoint, '^', printed);
    SplitWithoutSeparator(mountPoint, '^');
  }

  /** Every mount point is a name in the base directory, which starts with the filesystem's
      name if that has at most 64 characters and all of them are kept. */
  lemma MountPointLiesIn(baseDir: string, b32: string -> string, fs: string, printed: string, container: string)
    returns (name: string)
    requires Shaped(b32) && '/' !in b32(fs + ":" + printed) && '/' !in container
    ensures WithContainer(MountPointFor(baseDir, b32, fs, printed), container) == baseDir + "/" + name
    ensures '/' !in name && |name| <= 97 + |Suffix(container)|
    ensures |fs| <= 64 && (forall i :: 0 <= i < |fs| ==> Ids.Allowed(fs[i])) ==> fs + "-" <= name
  {
    var part, hash, suffix := AsciiPart(fs, 64), b32(fs + ":" + printed), Suffix(container);
    name := part + "-" + hash + suffix;
    MountPointIs(baseDir, b32, fs, printed, container);
    FilterHoldsNoSlash(fs);
    assert MountHead(baseDir, fs) + hash + suffix == baseDir + "/" + name;
    if forall i :: 0 <= i < |fs| ==> Ids.Allowed(fs[i]) {
      FilterKeepsAllowed(fs);
    }
  }

  // ----- when container names can be told apart

  /** Two mounts of different filesystems or options at one place. */
  ghost predicate Clash(baseDir: string, b32: string -> string, fs: string, printed: string, c: string,
                        fs': string, printed': string, c': string)
  {
    && Shaped(b32) && ':' !in fs && ':' !in fs' && (fs != fs' || printed != printed')
    && b32(fs + ":" + printed) != b32(fs' + ":" + printed')
    && WithContainer(MountPointFor(baseDir, b32, fs, printed), c)
       == WithContainer(MountPointFor(baseDir, b32, fs', printed'), c')
  }

  ghost predicate CanClash(c: string, c': string)
  {
    exists baseDir, b32, fs, printed, fs', printed' :: Clash(baseDir, b32, fs, printed, c, fs', printed', c')
  }

  lemma {:induction false} FilterKeepsAllowed(s: string)
    requires forall i :: 0 <= i < |s| ==> Ids.Allowed(s[i])
    ensures Filter(s) == s
  {
    if s != "" {
      FilterKeepsAllowed(s[1..]);
      assert s == [s[0]] + s[1..];
    }
  }

  function Repeat(c: char, n: nat): string
  {
    seq(n, _ => c)
  }

  lemma ConfusableClashes(c: string, c': string)
    requires Confusable(c, c')
    ensures CanClash(c, c')
  {
    var d := |Suffix(c')| - |Suffix(c)|;
    var hash, w := Suffix(c')[d - 32..d], Suffix(c')[..d - 32];
    ThreePieces(Suffix(c'), d - 32, d);
    PassingForHashClashes(c, c', hash, w);
  }

  lemma ThreePieces(s: string, i: nat, j: nat)
    requires i <= j <= |s|
    ensures s == s[..i] + s[i..j] + s[j..]
  {
  }

  lemma PassingForHashClashes(c: string, c': string, hash: string, w: string)
    requires HashLike(hash) && Between(w) && Suffix(c') == w + hash + Suffix(c)
    ensures CanClash(c, c')
  {
    var hash' := OtherHash(hash);
    LookAlikeHead(hash', w);
    LookAlikesClash("-" + hash' + w[..|w| - 1], hash, hash', w, c, c');
  }

  lemma OtherHash(hash: string) returns (hash': string)
    ensures hash' == Repeat('A', 32) || hash' == Repeat('B', 32)
    ensures HashLike(hash') && hash' != hash
  {
    hash' := Repeat('A', 32);
    if hash == hash' {
      hash' := Repeat('B', 32);
      assert hash[0] == 'A' && hash'[0] == 'B';
    }
  }

  /** The hash that gives one string one value and all others another. */
  function TwoValued(x: string, hash: string, hash': string): string -> string
  {
    (y: string) => if y == x then hash else hash'
  }

  lemma LookAlikesClash(fs: string, hash: string, hash': string, w: string, c: string, c': string)
    requires HashLike(hash) && HashLike(hash') && hash != hash' && fs != "" && ':' !in fs
    requires MountHead("", fs) == "/-" + hash' + w && MountHead("", "") == "/-"
    requires Suffix(c') == w + hash + Suffix(c)
    ensures CanClash(c, c')
  {
    var b32 := TwoValued(fs + ":" + "", hash, hash');
    assert |fs + ":" + ""| != |"" + ":" + ""|;
    MountPointIs("", b32, fs, "", c);
    MountPointIs("", b32, "", "", c');
    Regroup("/-" + hash', w, hash, Suffix(c));
    assert Clash("", b32, fs, "", c, "", "", c');
  }

  lemma Regroup(a: string, b: string, c: string, d: string)
    ensures a + b + c + d == a + (b + c + d)
  {
  }

  /** A filesystem named after a hash and the text before the other. */
  lemma LookAlikeHead(hash: string, w: string)
    requires Between(w) && (hash == Repeat('A', 32) || hash == Repeat('B', 32))
    ensures var fs := "-" + hash + w[..|w| - 1];
            ':' !in fs && MountHead("", fs) == "/-" + hash + w && MountHead("", "") == "/-"
  {
    var fs := "-" + hash + w[..|w| - 1];
    forall i | 0 <= i < |fs|
      ensures Ids.Allowed(fs[i]) && fs[i] != ':'
    {
      assert fs[i] == if i == 0 then '-' else if i < 33 then hash[i - 1] else w[i - 33];
    }
    FilterKeepsAllowed(fs);
    assert AsciiPart(fs, 64) == fs;
    assert fs + "-" == "-" + hash + w;
  }

  lemma ClashIsConfusable(c: string, c': string)
    requires CanClash(c, c')
    ensures Confusable(c, c') || Confusable(c', c)
  {
    var baseDir, b32, fs, printed, fs', printed' :| Clash(baseDir, b32, fs, printed, c, fs', printed', c');
    if !Confusable(c, c') && !Confusable(c', c) {
      MountPointsAreSeparate(baseDir, b32, fs, printed, c, fs', printed', c');
    }
  }

  lemma ClashIsSymmetric(c: string, c': string)
    requires CanClash(c, c')
    ensures CanClash(c', c)
  {
    var baseDir, b32, fs, printed, fs', printed' :| Clash(baseDir, b32, fs, printed, c, fs', printed', c');
    assert Clash(baseDir, b32, fs', printed', c', fs, printed, c);
  }

  /** Two container names can bring different mounts to one place, without a collision of
      hashes, exactly when one can pass for a hash followed by the other. */
  lemma ClashExactly(c: string, c': string)
    ensures CanClash(c, c') <==> Confusable(c, c') || Confusable(c', c)
  {
    if CanClash(c, c') {
      ClashIsConfusable(c, c');
    }
    if Confusable(c, c') {
      ConfusableClashes(c, c');
    }
    if Confusable(c', c) {
      ConfusableClashes(c', c);
      ClashIsSymmetric(c', c);
    }
  }

  // ----- the keys of a driver

  /** What a key is made of. */
  datatype Parts = Parts(fs: string, printed: string, container: string)

  /** A driver: where it mounts, how it hashes, and the container names it meets. */
  datatype Naming = Naming(baseDir: string, b32: string -> string, containers: set<string>) {
    ghost predicate Valid()
    {
      && Shaped(b32) && '^' !in baseDir
      && (forall c :: c in containers ==> '^' !in c)
      && (forall c, c' :: c in containers && c' in containers ==> !Confusable(c, c'))
    }

    function MountPoint(p: Parts): string
    {
      WithContainer(MountPointFor(baseDir, b32, p.fs, p.printed), p.container)
    }

    function Key(p: Parts): string
    {
      MountPoint(p) + "^" + p.printed
    }

    function Hashed(p: Parts): string
    {
      p.fs + ":" + p.printed
    }

    predicate Proper(p: Parts)
    {
      ':' !in p.fs && p.container in containers
    }

    ghost predicate Makes(key: string)
    {
      exists p :: Proper(p) && Key(p) == key
    }

    ghost function PartsOf(key: string): (p: Parts)
      requires Makes(key)
      ensures Proper(p) && Key(p) == key
    {
      var p :| Proper(p) && Key(p) == key;
      p
    }

    /** The strings hashed for some keys do not collide. */
    ghost predicate CollisionFree(keys: set<string>)
      requires forall k :: k in keys ==> Makes(k)
    {
      forall k, k' :: k in keys && k' in keys && b32(Hashed(PartsOf(k))) == b32(Hashed(PartsOf(k'))) ==>
                        Hashed(PartsOf(k)) == Hashed(PartsOf(k'))
    }
  }

  lemma KeyHoldsItsMountPoint(n: Naming, p: Parts)
    requires n.Valid() && n.Proper(p)
    ensures MountPointOf(n.Key(p)) == n.MountPoint(p)
  {
    FilterHoldsNoCaret(p.fs);
    assert HashLike(n.b32(p.fs + ":" + p.printed));
    KeyHoldsMountPoint(n.MountPoint(p), p.printed);
  }

  lemma {:induction false} FilterHoldsNoCaret(s: string)
    ensures '^' !in Filter(s)
  {
    if s != "" {
      FilterHoldsNoCaret(s[1..]);
    }
  }

  /** The keys of any mounts of a driver have different mount points, as every run of the mount
      table assumes, whatever containers they go through. */
  lemma DriverKeysAreSeparate(n: Naming, keys: set<string>)
    requires n.Valid() && (forall k :: k in keys ==> n.Makes(k)) && n.CollisionFree(keys)
    ensures Separate(keys)
  {
    forall k, k' | k in keys && k' in keys && MountPointOf(k) == MountPointOf(k')
      ensures k == k'
    {
      var p, p' := n.PartsOf(k), n.PartsOf(k');
      KeyHoldsItsMountPoint(n, p);
      KeyHoldsItsMountPoint(n, p');
      MountPointsAreSeparate(n.baseDir, n.b32, p.fs, p.printed, p.container, p'.fs, p'.printed, p'.container);
    }
  }
}
