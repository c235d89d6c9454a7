/** Assembling the boot directory of one configuration, in netboot and in ISO mode. */
module Assembly {
  import opened FileTree
  import opened FileOps
  import opened BootDirectory
  import opened ArtifactStore

  function BootDir(bc: string): Path {
    ["boot", bc]
  }

  function KernelDir(bc: string): Path {
    ["boot", bc, "kernel"]
  }

  function InitrdDir(bc: string): Path {
    ["boot", bc, "initrd"]
  }

  /** The link target used two directories below boot/. */
  function LinkFromModeDir(r: Ref): Path {
    ["..", "..", "..", "artifacts", r.name, r.file]
  }

  function LinkFromBootDir(r: Ref): Path {
    ["..", "..", "artifacts", r.name, r.file]
  }

  datatype Stage =
    | KernelDirectory | InitrdDirectory | KernelLink | Concatenation | InitrdLink
    | BootDirectory | Extraction | IsoLink

  datatype Assembled = Assembled(disk: Disk, failed: Option<Stage>)

  function FailIf(r: IoResult, stage: Stage): Assembled {
    Assembled(r.disk, if r.ok then None else Some(stage))
  }

  function PlaceInitrd(w: World, d: Disk, bc: string, initrd: Ref, firmware: Option<Ref>): Assembled {
    match firmware
    case Some(fw) =>
      FailIf(ConcatenateFiles(w, d, InitrdDir(bc) + [initrd.file], ArtifactPath(initrd), ArtifactPath(fw)),
             Concatenation)
    case None =>
      FailIf(EnsureSymlink(w, d, InitrdDir(bc), initrd.file, LinkFromModeDir(initrd)), InitrdLink)
  }

  function AssembleNetboot(w: World, d: Disk, bc: string, kernel: Ref, initrd: Ref, firmware: Option<Ref>): Assembled {
    var k := MkdirAll(w, d, KernelDir(bc));
    if !k.ok then FailIf(k, KernelDirectory)
    else
      var i := MkdirAll(w, k.disk, InitrdDir(bc));
      if !i.ok then FailIf(i, InitrdDirectory)
      else
        var l := EnsureSymlink(w, i.disk, KernelDir(bc), kernel.file, LinkFromModeDir(kernel));
        if !l.ok then FailIf(l, KernelLink) else PlaceInitrd(w, l.disk, bc, initrd, firmware)
  }

  function AssembleIso(w: World, d: Disk, read: Reader, bc: string, iso: Ref, kernel: string,
      initrd: string): Assembled {
    var b := MkdirAll(w, d, BootDir(bc));
    if !b.ok then FailIf(b, Stage.BootDirectory)
    else
      var e := ExtractFromIso(w, b.disk, read, ArtifactPath(iso), kernel, initrd, BootDir(bc));
      if !e.ok then FailIf(e, Extraction)
      else FailIf(EnsureFileSymlink(w, e.disk, BootDir(bc) + [iso.file], LinkFromBootDir(iso)), IsoLink)
  }

  method BuildNetboot(v: Volume, bc: string, kernel: Ref, initrd: Ref, firmware: Option<Ref>)
    returns (failed: Option<Stage>)
    modifies v
    ensures Assembled(v.disk, failed) == AssembleNetboot(v.w, old(v.disk), bc, kernel, initrd, firmware)
  {
    var ok := v.MakeDirs(KernelDir(bc));
    if !ok {
      return Some(KernelDirectory);
    }
    ok := v.MakeDirs(InitrdDir(bc));
    if !ok {
      return Some(InitrdDirectory);
    }
    ok := LinkInDir(v, KernelDir(bc), kernel.file, LinkFromModeDir(kernel));
    if !ok {
      return Some(KernelLink);
    }
    if firmware.Some? {
      var combined := InitrdDir(bc) + [initrd.file];
      ok := Concatenate(v, combined, ArtifactPath(initrd), ArtifactPath(firmware.value));
      failed := if ok then None else Some(Concatenation);
    } else {
      ok := LinkInDir(v, InitrdDir(bc), initrd.file, LinkFromModeDir(initrd));
      failed := if ok then None else Some(InitrdLink);
    }
  }

  method BuildIso(v: Volume, read: Reader, bc: string, iso: Ref, kernel: string, initrd: string)
    returns (failed: Option<Stage>)
    modifies v
    ensures Assembled(v.disk, failed) == AssembleIso(v.w, old(v.disk), read, bc, iso, kernel, initrd)
  {
    var ok := v.MakeDirs(BootDir(bc));
    if !ok {
      return Some(Stage.BootDirectory);
    }
    ok := ExtractImage(v, read, ArtifactPath(iso), kernel, initrd, BootDir(bc));
    if !ok {
      return Some(Extraction);
    }
    ok := LinkFile(v, BootDir(bc) + [iso.file], LinkFromBootDir(iso));
    failed := if ok then None else Some(IsoLink);
  }
}
