/** The procedures that assemble a served boot directory out of installed artifacts. */
module BootDirectory {
  import opened Words
  import opened FileTree
  import opened FileOps

  const MAX_EXTRACTED := 0x4000_0000  // 1 GiB
  const CONCAT_PREFIX := ".concat-"
  const EXTRACT_PREFIX := ".extract-"

  // ---- links ----

  function EnsureSymlink(w: World, d: Disk, dir: Path, name: string, target: Path): IoResult {
    var d1 := Next(w, d);
    if ReadLink(w, d, dir + [name]) == Some(target) then IoResult(d1, true)
    else match ReadDir(w, d1, dir)
      case None => Fails(w, d1)
      case Some(names) => Symlink(w, RemoveEntries(w, Next(w, d1), dir, names), target, dir + [name])
  }

  function EnsureFileSymlink(w: World, d: Disk, link: Path, target: Path): IoResult {
    var d1 := Next(w, d);
    if ReadLink(w, d, link) == Some(target) then IoResult(d1, true)
    else Symlink(w, Remove(w, d1, link), target, link)
  }

  // ---- concatenation ----

  function CopyFrom(w: World, d: Disk, tmp: Path, src: Path): (r: IoResult)
    requires IsFile(d, tmp)
    ensures IsFile(r.disk, tmp)
  {
    match OpenRead(w, d, src)
    case None => Fails(w, d)
    case Some(data) => Append(w, Next(w, d), tmp, data)
  }

  /** Close, chmod, rename: what turns a filled temporary file into the published one. */
  function Publish(w: World, d: Disk, tmp: Path, dst: Path): IoResult {
    var closed := Settle(w, d);
    if !closed.ok then closed
    else
      var moded := Settle(w, closed.disk);
      if !moded.ok then moded else Rename(w, moded.disk, tmp, dst)
  }

  function FillAndPublish(w: World, d: Disk, tmp: Path, dst: Path, a: Path, b: Path): IoResult
    requires IsFile(d, tmp)
  {
    var first := CopyFrom(w, d, tmp, a);
    if !first.ok then first
    else
      var second := CopyFrom(w, first.disk, tmp, b);
      if !second.ok then second else Publish(w, second.disk, tmp, dst)
  }

  /** Empties the directory and builds dst anew; the temporary file is removed in any case. */
  function Rebuild(w: World, d: Disk, dst: Path, a: Path, b: Path): IoResult {
    match ReadDir(w, d, Parent(dst))
    case None => Fails(w, d)
    case Some(names) =>
      var d1 := RemoveEntries(w, Next(w, d), Parent(dst), names);
      var made := CreateTemp(w, d1, Parent(dst), CONCAT_PREFIX);
      if !made.ok then made
      else
        var tmp := TempPath(w, d1, Parent(dst), CONCAT_PREFIX);
        var r := FillAndPublish(w, made.disk, tmp, dst, a, b);
        IoResult(Remove(w, r.disk, tmp), r.ok)
  }

  function ConcatenateFiles(w: World, d: Disk, dst: Path, a: Path, b: Path): IoResult {
    var d1 := Next(w, d);
    match StatTime(w, d, dst)
    case None => Rebuild(w, d1, dst, a, b)
    case Some(td) =>
      match StatTime(w, d1, a)
      case None => Fails(w, d1)
      case Some(ta) =>
        var d2 := Next(w, d1);
        match StatTime(w, d2, b)
        case None => Fails(w, d2)
        case Some(tb) =>
          if td > ta && td > tb then IoResult(Next(w, d2), true) else Rebuild(w, Next(w, d2), dst, a, b)
  }

  // ---- extraction ----

  /** What an ISO image holds, by absolute in-image path; None when it is no filesystem. */
  type Reader = Bytes -> Option<map<string, Bytes>>

  function Rooted(src: string): string {
    if src != [] && src[0] == '/' then src else "/" + src
  }

  function FillAndPublishEntry(w: World, d: Disk, tmp: Path, dst: Path, data: Bytes): IoResult
    requires IsFile(d, tmp)
  {
    var copied := if |data| <= MAX_EXTRACTED then data else data[..MAX_EXTRACTED + 1];
    var r := Append(w, d, tmp, copied);
    if !r.ok then r
    else if |copied| > MAX_EXTRACTED then IoResult(r.disk, false)
    else Publish(w, r.disk, tmp, dst)
  }

  function ExtractFile(w: World, d: Disk, files: map<string, Bytes>, src: string, dst: Path): IoResult {
    if w.fault(d.step) || Rooted(src) !in files then Fails(w, d)
    else
      var d1 := Next(w, d);
      var made := CreateTemp(w, d1, Parent(dst), EXTRACT_PREFIX);
      if !made.ok then made
      else
        var tmp := TempPath(w, d1, Parent(dst), EXTRACT_PREFIX);
        var r := FillAndPublishEntry(w, made.disk, tmp, dst, files[Rooted(src)]);
        IoResult(Remove(w, r.disk, tmp), r.ok)
  }

  predicate Newer(t: Option<nat>, src: nat) {
    t.Some? && t.value > src
  }

  function OpenImage(w: World, d: Disk, read: Reader, iso: Path): Option<map<string, Bytes>> {
    match OpenRead(w, d, iso)
    case None => None
    case Some(bytes) => read(bytes)
  }

  function ExtractBoth(w: World, d: Disk, read: Reader, iso: Path, kernel: string, initrd: string,
      out: Path): IoResult {
    match OpenImage(w, d, read, iso)
    case None => Fails(w, d)
    case Some(files) =>
      var first := ExtractFile(w, Next(w, d), files, kernel, out + ["vmlinuz"]);
      if !first.ok then first else ExtractFile(w, first.disk, files, initrd, out + ["initrd"])
  }

  function ExtractFromIso(w: World, d: Disk, read: Reader, iso: Path, kernel: string, initrd: string,
      out: Path): IoResult {
    match StatTime(w, d, iso)
    case None => Fails(w, d)
    case Some(ti) =>
      var d1 := Next(w, d);
      var d2 := Next(w, d1);
      if !Newer(StatTime(w, d1, out + ["vmlinuz"]), ti) then ExtractBoth(w, d2, read, iso, kernel, initrd, out)
      else if !Newer(StatTime(w, d2, out + ["initrd"]), ti) then
        ExtractBoth(w, Next(w, d2), read, iso, kernel, initrd, out)
      else IoResult(Next(w, d2), true)
  }

  // ---- the same, step by step on a volume ----

  method ClearEntries(v: Volume, dir: Path, names: seq<string>)
    modifies v
    ensures v.disk == RemoveEntries(v.w, old(v.disk), dir, names)
  {
    for i := 0 to |names|
      invariant RemoveEntries(v.w, v.disk, dir, names[i..]) == RemoveEntries(v.w, old(v.disk), dir, names)
    {
      assert names[i..][1..] == names[i + 1..];
      v.RemoveTree(dir + [names[i]]);
    }
    assert names[|names|..] == [];
  }

  method LinkInDir(v: Volume, dir: Path, name: string, target: Path) returns (ok: bool)
    modifies v
    ensures IoResult(v.disk, ok) == EnsureSymlink(v.w, old(v.disk), dir, name, target)
  {
    var link := dir + [name];
    var existing := v.LinkTarget(link);
    if existing == Some(target) {
      return true;
    }
    var names := v.ListDir(dir);
    if names == None {
      return false;
    }
    ClearEntries(v, dir, names.value);
    ok := v.MakeLink(target, link);
  }

  method LinkFile(v: Volume, link: Path, target: Path) returns (ok: bool)
    modifies v
    ensures IoResult(v.disk, ok) == EnsureFileSymlink(v.w, old(v.disk), link, target)
  {
    var existing := v.LinkTarget(link);
    if existing == Some(target) {
      return true;
    }
    v.RemoveFile(link);
    ok := v.MakeLink(target, link);
  }

  /** One published file out of a temporary one; `sources` are copied in order. */
  method Fill(v: Volume, tmp: Path, dst: Path, sources: seq<Path>) returns (ok: bool)
    requires IsFile(v.disk, tmp) && |sources| == 2
    modifies v
    ensures IoResult(v.disk, ok) == FillAndPublish(v.w, old(v.disk), tmp, dst, sources[0], sources[1])
  {
    for i := 0 to 2
      invariant IsFile(v.disk, tmp)
      invariant i == 0 ==> v.disk == old(v.disk)
      invariant i == 1 ==> IoResult(v.disk, true) == CopyFrom(v.w, old(v.disk), tmp, sources[0])
      invariant i == 2 ==>
                  var first := CopyFrom(v.w, old(v.disk), tmp, sources[0]);
                  first.ok && IoResult(v.disk, true) == CopyFrom(v.w, first.disk, tmp, sources[1])
    {
      var data := v.ReadFile(sources[i]);
      if data == None {
        return false;
      }
      var copied := v.Write(tmp, data.value);
      if !copied {
        return false;
      }
    }
    ok := Seal(v, tmp, dst);
  }

  method Seal(v: Volume, tmp: Path, dst: Path) returns (ok: bool)
    modifies v
    ensures IoResult(v.disk, ok) == Publish(v.w, old(v.disk), tmp, dst)
  {
    ok := v.Finish();
    if !ok {
      return;
    }
    ok := v.Finish();
    if !ok {
      return;
    }
    ok := v.RenameTo(tmp, dst);
  }

  method Concatenate(v: Volume, dst: Path, a: Path, b: Path) returns (ok: bool)
    modifies v
    ensures IoResult(v.disk, ok) == ConcatenateFiles(v.w, old(v.disk), dst, a, b)
  {
    var td := v.StatFile(dst);
    if td.Some? {
      var ta := v.StatFile(a);
      if ta == None {
        return false;
      }
      var tb := v.StatFile(b);
      if tb == None {
        return false;
      }
      if td.value > ta.value && td.value > tb.value {
        return true;
      }
    }
    var names := v.ListDir(Parent(dst));
    if names == None {
      return false;
    }
    ClearEntries(v, Parent(dst), names.value);
    var made, tmp := v.NewTemp(Parent(dst), CONCAT_PREFIX);
    if !made {
      return false;
    }
    ok := Fill(v, tmp, dst, [a, b]);
    v.RemoveFile(tmp);
  }

  method Extract(v: Volume, files: map<string, Bytes>, src: string, dst: Path) returns (ok: bool)
    modifies v
    ensures IoResult(v.disk, ok) == ExtractFile(v.w, old(v.disk), files, src, dst)
  {
    var found := v.Finish();
    if !found || Rooted(src) !in files {
      return false;
    }
    var made, tmp := v.NewTemp(Parent(dst), EXTRACT_PREFIX);
    if !made {
      return false;
    }
    var data := files[Rooted(src)];
    var copied := if |data| <= MAX_EXTRACTED then data else data[..MAX_EXTRACTED + 1];
    ok := v.Write(tmp, copied);
    if ok && |copied| > MAX_EXTRACTED {
      ok := false;
    } else if ok {
      ok := Seal(v, tmp, dst);
    }
    v.RemoveFile(tmp);
  }

  method ExtractImage(v: Volume, read: Reader, iso: Path, kernel: string, initrd: string, out: Path) returns (ok: bool)
    modifies v
    ensures IoResult(v.disk, ok) == ExtractFromIso(v.w, old(v.disk), read, iso, kernel, initrd, out)
  {
    var ti := v.StatFile(iso);
    if ti == None {
      return false;
    }
    var tk := v.StatFile(out + ["vmlinuz"]);
    if Newer(tk, ti.value) {
      var tr := v.StatFile(out + ["initrd"]);
      if Newer(tr, ti.value) {
        return true;
      }
    }
    var bytes := v.ReadFile(iso);
    if bytes == None {
      return false;
    }
    var files := read(bytes.value);
    if files == None {
      return false;
    }
    var targets := [(kernel, out + ["vmlinuz"]), (initrd, out + ["initrd"])];
    ok := Extract(v, files.value, targets[0].0, targets[0].1);
    if ok {
      ok := Extract(v, files.value, targets[1].0, targets[1].1);
    }
  }
}
