/**
 * What a build's report tells: of success, that every operation on the published file was done and
 * none failed; of failure at a stage, what is missing.
 */
module Durability {
  import opened Words
  import opened FileTree
  import opened FileOps
  import opened CrashSafety
  import opened BootDirectory
  import opened ArtifactStore
  import opened Assembly

  /** No operation from `since` up to `until` failed. */
  predicate Quiet(w: World, since: nat, until: nat) {
    forall k | since <= k < until :: !w.fault(k)
  }

  lemma PublishQuiet(w: World, d: Disk, tmp: Path, dst: Path)
    requires Publish(w, d, tmp, dst).ok
    ensures var e := Publish(w, d, tmp, dst).disk; e.step == d.step + 3 && Quiet(w, d.step, e.step)
  {
  }

  lemma FillQuiet(w: World, d: Disk, tmp: Path, dst: Path, a: Path, b: Path)
    requires IsFile(d, tmp) && FillAndPublish(w, d, tmp, dst, a, b).ok
    ensures var e := FillAndPublish(w, d, tmp, dst, a, b).disk; e.step == d.step + 7 && Quiet(w, d.step, e.step)
  {
    hide Publish, Content;
    var first := CopyFrom(w, d, tmp, a);
    PublishQuiet(w, CopyFrom(w, first.disk, tmp, b).disk, tmp, dst);
  }

  lemma RebuildQuiet(w: World, d: Disk, dst: Path, a: Path, b: Path)
    requires Rebuild(w, d, dst, a, b).ok
    ensures var e := Rebuild(w, d, dst, a, b).disk; 9 <= e.step && Quiet(w, e.step - 9, e.step - 1)
  {
    hide FillAndPublish, RemoveEntries;
    var d1 := RemoveEntries(w, Next(w, d), Parent(dst), ReadDir(w, d, Parent(dst)).value);
    var made := CreateTemp(w, d1, Parent(dst), CONCAT_PREFIX);
    FillQuiet(w, made.disk, TempPath(w, d1, Parent(dst), CONCAT_PREFIX), dst, a, b);
  }

  /**
   * A concatenation that succeeds without skipping ends in nine operations: create, open and copy
   * twice, close, chmod, rename, none of which failed, and the removal of the temporary name.
   */
  lemma ConcatenationComplete(w: World, d: Disk, dst: Path, a: Path, b: Path)
    requires ConcatenateFiles(w, d, dst, a, b).ok && !Skips(w, d, dst, a, b)
    ensures var e := ConcatenateFiles(w, d, dst, a, b).disk;
            9 <= e.step && forall k | e.step - 9 <= k < e.step - 1 :: !w.fault(k)
  {
    hide Rebuild, StatTime;
    var d1 := Next(w, d);
    var d3 := Next(w, Next(w, d1));
    if Rebuild(w, d1, dst, a, b).ok {
      RebuildQuiet(w, d1, dst, a, b);
    }
    if Rebuild(w, d3, dst, a, b).ok {
      RebuildQuiet(w, d3, dst, a, b);
    }
  }

  /**
   * An extraction that succeeds takes seven operations: open in the image, create, copy, close,
   * chmod, rename, none of which failed, and the removal; the image holds the entry, within 1 GiB.
   */
  lemma ExtractionComplete(w: World, d: Disk, files: map<string, Bytes>, src: string, dst: Path)
    requires ExtractFile(w, d, files, src, dst).ok
    ensures var e := ExtractFile(w, d, files, src, dst).disk;
            && e.step == d.step + 7 && (forall k | d.step <= k < e.step - 1 :: !w.fault(k))
            && exists entry :: entry in files && (entry == src || entry == "/" + src) && |files[entry]| <= 0x4000_0000
  {
    hide Publish;
    var d1 := Next(w, d);
    var made := CreateTemp(w, d1, Parent(dst), EXTRACT_PREFIX);
    var tmp := TempPath(w, d1, Parent(dst), EXTRACT_PREFIX);
    var data := files[Rooted(src)];
    PublishQuiet(w, Append(w, made.disk, tmp, data).disk, tmp, dst);
    assert data[..|data|] == data;
    assert Rooted(src) in files;
  }

  // ---- failures ----

  /** p and every directory above it are there. */
  predicate Stands(t: Tree, p: Path) {
    forall k | 0 <= k <= |p| :: DirAt(t, p[..k])
  }

  lemma {:induction false} MkdirStandsIff(w: World, d: Disk, p: Path)
    ensures MkdirAll(w, d, p).ok <==> Stands(MkdirAll(w, d, p).disk.nodes, p)
    decreases |p|
  {
    hide MadeDirs;
    MkdirEffect(w, d, p);
    if p != [] {
      MkdirStandsIff(w, d, Parent(p));
      assert p[..|p|] == p;
      forall k | 0 <= k < |p| ensures Parent(p)[..k] == p[..k] {
      }
    }
  }

  lemma MkdirKeepsStanding(w: World, d: Disk, p: Path, q: Path)
    requires Stands(d.nodes, q)
    ensures Stands(MkdirAll(w, d, p).disk.nodes, q)
  {
    MkdirEffect(w, d, p);
    forall k | 0 <= k <= |q| ensures DirAt(MkdirAll(w, d, p).disk.nodes, q[..k]) {
      assert DirAt(d.nodes, q[..k]);
    }
  }

  /**
   * A netboot build that fails making a directory leaves that one incomplete, the kernel's before the
   * initrd's; the two ways to place an initrd are told apart by whether firmware was asked for.
   */
  lemma NetbootFailureTells(w: World, d: Disk, bc: string, kernel: Ref, initrd: Ref, firmware: Option<Ref>)
    ensures var o := AssembleNetboot(w, d, bc, kernel, initrd, firmware);
            var k, i := ["boot", bc, "kernel"], ["boot", bc, "initrd"];
            && (o.failed == Some(KernelDirectory) ==> !Stands(o.disk.nodes, k))
            && (o.failed == Some(InitrdDirectory) ==> Stands(o.disk.nodes, k) && !Stands(o.disk.nodes, i))
            && (o.failed == Some(Concatenation) ==> firmware.Some?)
            && (o.failed == Some(InitrdLink) ==> firmware == None)
            && o.failed in {None, Some(KernelDirectory), Some(InitrdDirectory), Some(KernelLink), Some(Concatenation),
                            Some(InitrdLink)}
  {
    hide MkdirAll, EnsureSymlink, ConcatenateFiles, Stands;
    MkdirStandsIff(w, d, KernelDir(bc));
    var k := MkdirAll(w, d, KernelDir(bc));
    if k.ok {
      MkdirStandsIff(w, k.disk, InitrdDir(bc));
      MkdirKeepsStanding(w, k.disk, InitrdDir(bc), KernelDir(bc));
    }
  }

  /** An ISO build that fails making the boot directory leaves it incomplete, and otherwise extraction had its turn. */
  lemma IsoFailureTells(w: World, d: Disk, read: Reader, bc: string, iso: Ref, kernel: string, initrd: string)
    ensures var o := AssembleIso(w, d, read, bc, iso, kernel, initrd);
            && (o.failed == Some(Stage.BootDirectory) ==> !Stands(o.disk.nodes, ["boot", bc]))
            && (o.failed == Some(IsoLink) ==>
                  exists e: Disk :: Stands(e.nodes, ["boot", bc])
                    && ExtractFromIso(w, e, read, ArtifactPath(iso), kernel, initrd, ["boot", bc]).ok)
            && o.failed in {None, Some(Stage.BootDirectory), Some(Extraction), Some(IsoLink)}
  {
    hide MkdirAll, ExtractFromIso, EnsureFileSymlink, Stands;
    MkdirStandsIff(w, d, BootDir(bc));
  }
}
