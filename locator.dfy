/**
 * Where `DumpBin` looks for `dumpbin.exe`: the Visual C++ installations
 * listed under `HKLM\SOFTWARE\WOW6432Node\Microsoft\VisualStudio\VC`, each
 * asked for its compiler for the current architecture, and the last
 * installation whose compiler folder holds `dumpbin.exe` wins.
 */
module Locator {
  import opened Wrappers
  import opened Errors
  import opened Registry

  const InstalledVc: string := "SOFTWARE\\WOW6432Node\\Microsoft\\VisualStudio\\VC"
  const CompilerValue: string := "Compiler"
  const DumpbinFile: string := "dumpbin.exe"
  const NoDumpbinMessage: string := "No DumpBin found!"
  const Vc19: string := "19.0"

  /** The full path of the key that lists the installed VC versions. */
  const RootPath: string := Child(HklmPath, InstalledVc)

  /** The architectures the crate is built for. */
  datatype TargetArch = X86 | X86_64 | AArch64 | Arm

  /** `current_arch`: the architecture's directory name in the VC key layout. */
  function CurrentArch(target: TargetArch): string
  {
    match target
    case X86 => "x86"
    case X86_64 => "x64"
    case AArch64 => "arm64"
    case Arm => "arm"
  }

  /** Each architecture has its own directory name. */
  lemma CurrentArchInjective(a: TargetArch, b: TargetArch)
    ensures CurrentArch(a) == CurrentArch(b) <==> a == b
  {
  }

  /** The subkey of an installation that holds the compiler for `arch`. */
  function CompilerSubkey(vc: string, arch: string): string
  {
    vc + "\\" + arch + "\\" + arch
  }

  /**
   * The path operations the locator uses (`Path::parent`, `Path::join` and
   * `Path::exists`), given as they behave on the machine. `pathExists`
   * holds for any existing path, a directory as much as a file.
   */
  datatype FileSystem = FileSystem(
    parent: string -> Option<string>,
    join: (string, string) -> string,
    pathExists: string -> bool)

  /**
   * What one installation contributes: the `dumpbin.exe` next to its
   * compiler, when its compiler subkey exists, its `Compiler` value is a
   * string, that path has a parent folder and the file exists there.
   */
  function Candidate(keys: map<string, KeyData>, arch: string, fs: FileSystem, vc: string): Option<string>
  {
    var path := Child(RootPath, CompilerSubkey(vc, arch));
    if path !in keys || CompilerValue !in keys[path].values then None
    else
      match keys[path].values[CompilerValue]
      case SZ(compiler) =>
        (match fs.parent(compiler)
         case None => None
         case Some(folder) =>
           var dumpbin := fs.join(folder, DumpbinFile);
           if fs.pathExists(dumpbin) then Some(dumpbin) else None)
      case _ => None
  }

  /** The contribution of the last installation in `vcs` that contributes one. */
  function LastHit(keys: map<string, KeyData>, arch: string, fs: FileSystem, vcs: seq<string>): Option<string>
  {
    if vcs == [] then None
    else
      var hit := Candidate(keys, arch, fs, vcs[|vcs| - 1]);
      if hit.Some? then hit else LastHit(keys, arch, fs, vcs[..|vcs| - 1])
  }

  /** How many of `vcs` have a compiler subkey the loop can open. */
  function Opened(keys: map<string, KeyData>, arch: string, vcs: seq<string>): nat
  {
    if vcs == [] then 0
    else
      Opened(keys, arch, vcs[..|vcs| - 1])
      + (if Child(RootPath, CompilerSubkey(vcs[|vcs| - 1], arch)) in keys then 1 else 0)
  }

  /** The handles `lo`, `lo + 1`, ..., `hi - 1`, in order. */
  function Range(lo: nat, hi: nat): seq<nat>
    decreases hi
  {
    if hi <= lo then [] else Range(lo, hi - 1) + [hi - 1]
  }

  /** The loop's verdict once every installation has been tried. */
  function Selected(hit: Option<string>): Result<string, DumpBinError>
  {
    match hit
    case Some(p) => Ok(p)
    case None => Err(Other(NoDumpbinMessage))
  }

  /** `locate_dumpbin`, as a reference definition over the registry contents. */
  function Located(keys: map<string, KeyData>, failure: ForensicError, arch: string, fs: FileSystem)
    : Result<string, DumpBinError>
  {
    if RootPath !in keys || keys[RootPath].subkeys.None? then Err(FromForensic(failure))
    else Selected(LastHit(keys, arch, fs, keys[RootPath].subkeys.value))
  }

  /** `locate_dumpbin_for_vc(vc)`, as a reference definition over the registry contents. */
  function LocatedForVc(keys: map<string, KeyData>, failure: ForensicError, arch: string, fs: FileSystem, vc: string)
    : Result<string, DumpBinError>
  {
    if RootPath !in keys then Err(FromForensic(failure))
    else Selected(LastHit(keys, arch, fs, [vc]))
  }

  /**
   * A hit is the contribution of some installation, and no later
   * installation contributes: a later match replaces an earlier one.
   */
  lemma {:induction false} LastHitIsLast(keys: map<string, KeyData>, arch: string, fs: FileSystem, vcs: seq<string>)
    ensures LastHit(keys, arch, fs, vcs).Some? ==>
              exists i :: 0 <= i < |vcs| && Candidate(keys, arch, fs, vcs[i]) == LastHit(keys, arch, fs, vcs)
                          && forall j :: i < j < |vcs| ==> Candidate(keys, arch, fs, vcs[j]).None?
    ensures LastHit(keys, arch, fs, vcs).None? <==> forall i :: 0 <= i < |vcs| ==> Candidate(keys, arch, fs, vcs[i]).None?
  {
    if vcs != [] {
      var n := |vcs| - 1;
      var front := vcs[..n];
      LastHitIsLast(keys, arch, fs, front);
      assert forall i :: 0 <= i < n ==> vcs[i] == front[i];
      if Candidate(keys, arch, fs, vcs[n]).None? && LastHit(keys, arch, fs, front).Some? {
        var i :| 0 <= i < n && Candidate(keys, arch, fs, front[i]) == LastHit(keys, arch, fs, front)
                 && forall j :: i < j < n ==> Candidate(keys, arch, fs, front[j]).None?;
        assert Candidate(keys, arch, fs, vcs[i]) == LastHit(keys, arch, fs, vcs);
      }
    }
  }

  /** Any installation that contributes, with none contributing after it, is the one selected. */
  lemma LastHitOf(keys: map<string, KeyData>, arch: string, fs: FileSystem, vcs: seq<string>, i: nat)
    requires i < |vcs| && Candidate(keys, arch, fs, vcs[i]).Some?
    requires forall j :: i < j < |vcs| ==> Candidate(keys, arch, fs, vcs[j]).None?
    ensures LastHit(keys, arch, fs, vcs) == Candidate(keys, arch, fs, vcs[i])
    decreases |vcs|
  {
    if i < |vcs| - 1 {
      LastHitOf(keys, arch, fs, vcs[..|vcs| - 1], i);
    }
  }

  /** Each handle of a range comes once, so every handle opened is closed exactly once. */
  lemma {:induction false} RangeDistinct(lo: nat, hi: nat)
    ensures |Range(lo, hi)| == if hi <= lo then 0 else hi - lo
    ensures forall k :: 0 <= k < |Range(lo, hi)| ==> Range(lo, hi)[k] == lo + k
    decreases hi
  {
    if lo < hi {
      RangeDistinct(lo, hi - 1);
    }
  }

  /** `locate_dumpbin_for_vc(vc)` selects exactly what its one installation contributes. */
  lemma LocatedForVcIsCandidate(keys: map<string, KeyData>, failure: ForensicError, arch: string, fs: FileSystem, vc: string)
    requires RootPath in keys
    ensures LocatedForVc(keys, failure, arch, fs, vc) == Selected(Candidate(keys, arch, fs, vc))
  {
    var vcs := [vc];
    assert vcs[..0] == [] && vcs[0] == vc;
    assert LastHit(keys, arch, fs, vcs[..0]) == None;
  }

  /**
   * One pass of the loop of `locate_dumpbin`: open the compiler subkey of
   * `vc` (skipping `vc` if that fails), read `Compiler`, take its parent
   * folder, and keep `dumpbin.exe` there if it exists; the subkey, once
   * opened, is closed on every path.
   */
  method TryCandidate(reader: Reader, root: nat, arch: string, fs: FileSystem, vc: string, before: Option<string>)
    returns (selected: Option<string>)
    requires reader.Valid() && root in reader.open && reader.open[root] == RootPath
    modifies reader
    ensures reader.Valid() && reader.open == old(reader.open)
    ensures selected == if Candidate(reader.keys, arch, fs, vc).Some? then Candidate(reader.keys, arch, fs, vc) else before
    ensures var opens := Child(RootPath, CompilerSubkey(vc, arch)) in reader.keys;
            reader.next == old(reader.next) + (if opens then 1 else 0)
            && reader.closed == old(reader.closed) + (if opens then [old(reader.next)] else [])
  {
    selected := before;
    var subkey := reader.OpenKey(Hkey(root), CompilerSubkey(vc, arch));
    if subkey.Err? {
      return;
    }
    var key := subkey.value;
    var value := reader.ReadValue(key, CompilerValue);
    if value.Err? || !value.value.SZ? {
      reader.CloseKey(key);
      assert reader.open == old(reader.open);
      return;
    }
    var folder := fs.parent(value.value.text);
    if folder.None? {
      reader.CloseKey(key);
      assert reader.open == old(reader.open);
      return;
    }
    var dumpbin := fs.join(folder.value, DumpbinFile);
    if fs.pathExists(dumpbin) {
      selected := Some(dumpbin);
    }
    reader.CloseKey(key);
    assert reader.open == old(reader.open);
  }

  /**
   * The loop of `locate_dumpbin`: try each installation in order and keep
   * the latest hit; every compiler subkey opened is closed, in order, and
   * the handles open before the loop are open after it.
   */
  method SelectCandidate(reader: Reader, root: nat, arch: string, fs: FileSystem, vcs: seq<string>)
    returns (selected: Option<string>)
    requires reader.Valid() && root in reader.open && reader.open[root] == RootPath
    modifies reader
    ensures reader.Valid()
    ensures selected == LastHit(reader.keys, arch, fs, vcs)
    ensures reader.open == old(reader.open)
    ensures reader.next == old(reader.next) + Opened(reader.keys, arch, vcs)
    ensures reader.closed == old(reader.closed) + Range(old(reader.next), reader.next)
  {
    selected := None;
    var i := 0;
    while i < |vcs|
      invariant 0 <= i <= |vcs|
      invariant reader.Valid() && reader.open == old(reader.open)
      invariant selected == LastHit(reader.keys, arch, fs, vcs[..i])
      invariant reader.next == old(reader.next) + Opened(reader.keys, arch, vcs[..i])
      invariant reader.closed == old(reader.closed) + Range(old(reader.next), reader.next)
    {
      assert vcs[..i + 1][..i] == vcs[..i];
      selected := TryCandidate(reader, root, arch, fs, vcs[i], selected);
      i := i + 1;
    }
    assert vcs[..i] == vcs;
  }

  /**
   * `locate_dumpbin`: open the installations key, list the installations,
   * run the loop. The installations key is closed only when listing them
   * fails; on every other return it is left open.
   */
  method LocateDumpbin(reader: Reader, target: TargetArch, fs: FileSystem) returns (r: Result<string, DumpBinError>)
    requires reader.Valid()
    modifies reader
    ensures reader.Valid()
    ensures r == Located(reader.keys, reader.failure, CurrentArch(target), fs)
    ensures RootPath !in reader.keys ==>
              reader.open == old(reader.open) && reader.next == old(reader.next) && reader.closed == old(reader.closed)
    ensures RootPath in reader.keys && reader.keys[RootPath].subkeys.None? ==>
              reader.open == old(reader.open) && reader.next == old(reader.next) + 1
              && reader.closed == old(reader.closed) + [old(reader.next)]
    ensures RootPath in reader.keys && reader.keys[RootPath].subkeys.Some? ==>
              reader.open == old(reader.open)[old(reader.next) := RootPath]
              && reader.closed == old(reader.closed) + Range(old(reader.next) + 1, reader.next)
  {
    var installed := reader.OpenKey(HkeyLocalMachine, InstalledVc);
    if installed.Err? {
      return Err(FromForensic(installed.error));
    }
    var root := installed.value;
    var vcList := reader.EnumerateKeys(root);
    if vcList.Err? {
      reader.CloseKey(root);
      assert reader.open == old(reader.open);
      return Err(FromForensic(vcList.error));
    }
    var arch := CurrentArch(target);
    var selected := SelectCandidate(reader, root.handle, arch, fs, vcList.value);
    r := Selected(selected);
  }

  /**
   * `locate_dumpbin_for_vc(vc)`: the same loop over the one installation
   * `vc`; the installations key is never closed.
   */
  method LocateDumpbinForVc(reader: Reader, target: TargetArch, fs: FileSystem, vc: string)
    returns (r: Result<string, DumpBinError>)
    requires reader.Valid()
    modifies reader
    ensures reader.Valid()
    ensures r == LocatedForVc(reader.keys, reader.failure, CurrentArch(target), fs, vc)
    ensures RootPath !in reader.keys ==>
              reader.open == old(reader.open) && reader.next == old(reader.next) && reader.closed == old(reader.closed)
    ensures RootPath in reader.keys ==>
              reader.open == old(reader.open)[old(reader.next) := RootPath]
              && reader.closed == old(reader.closed) + Range(old(reader.next) + 1, reader.next)
  {
    var installed := reader.OpenKey(HkeyLocalMachine, InstalledVc);
    if installed.Err? {
      return Err(FromForensic(installed.error));
    }
    var root := installed.value;
    var arch := CurrentArch(target);
    var selected := SelectCandidate(reader, root.handle, arch, fs, [vc]);
    r := Selected(selected);
  }

  /** The located tool, as `DumpBin` holds it. */
  datatype DumpBin = DumpBin(dumpbinPath: string)

  /**
   * `DumpBin::new`: the tool of the last installation that has one, for the
   * architecture the crate is built for. The handles end as `LocateDumpbin`
   * leaves them.
   */
  method New(reader: Reader, target: TargetArch, fs: FileSystem) returns (r: Result<DumpBin, DumpBinError>)
    requires reader.Valid()
    modifies reader
    ensures reader.Valid()
    ensures var located := Located(reader.keys, reader.failure, CurrentArch(target), fs);
            (r.Ok? <==> located.Ok?)
            && (r.Ok? ==> r.value.dumpbinPath == located.value)
            && (r.Err? ==> r.error == located.error)
    ensures RootPath !in reader.keys ==>
              reader.open == old(reader.open) && reader.next == old(reader.next) && reader.closed == old(reader.closed)
    ensures RootPath in reader.keys && reader.keys[RootPath].subkeys.None? ==>
              reader.open == old(reader.open) && reader.next == old(reader.next) + 1
              && reader.closed == old(reader.closed) + [old(reader.next)]
    ensures RootPath in reader.keys && reader.keys[RootPath].subkeys.Some? ==>
              reader.open == old(reader.open)[old(reader.next) := RootPath]
              && reader.closed == old(reader.closed) + Range(old(reader.next) + 1, reader.next)
  {
    var path := LocateDumpbin(reader, target, fs);
    if path.Err? {
      return Err(path.error);
    }
    r := Ok(DumpBin(path.value));
  }

  /**
   * `DumpBin::for_kit(version)`: the tool of that one VC installation. The
   * handles end as `LocateDumpbinForVc` leaves them.
   */
  method ForKit(reader: Reader, target: TargetArch, fs: FileSystem, version: string)
    returns (r: Result<DumpBin, DumpBinError>)
    requires reader.Valid()
    modifies reader
    ensures reader.Valid()
    ensures var located := LocatedForVc(reader.keys, reader.failure, CurrentArch(target), fs, version);
            (r.Ok? <==> located.Ok?)
            && (r.Ok? ==> r.value.dumpbinPath == located.value)
            && (r.Err? ==> r.error == located.error)
    ensures RootPath !in reader.keys ==>
              reader.open == old(reader.open) && reader.next == old(reader.next) && reader.closed == old(reader.closed)
    ensures RootPath in reader.keys ==>
              reader.open == old(reader.open)[old(reader.next) := RootPath]
              && reader.closed == old(reader.closed) + Range(old(reader.next) + 1, reader.next)
  {
    var path := LocateDumpbinForVc(reader, target, fs, version);
    if path.Err? {
      return Err(path.error);
    }
    r := Ok(DumpBin(path.value));
  }

  /** `DumpBin::vc19`: `for_kit("19.0")`. */
  method ForVc19(reader: Reader, target: TargetArch, fs: FileSystem) returns (r: Result<DumpBin, DumpBinError>)
    requires reader.Valid()
    modifies reader
    ensures reader.Valid()
    ensures var located := LocatedForVc(reader.keys, reader.failure, CurrentArch(target), fs, Vc19);
            (r.Ok? <==> located.Ok?)
            && (r.Ok? ==> r.value.dumpbinPath == located.value)
            && (r.Err? ==> r.error == located.error)
    ensures RootPath !in reader.keys ==>
              reader.open == old(reader.open) && reader.next == old(reader.next) && reader.closed == old(reader.closed)
    ensures RootPath in reader.keys ==>
              reader.open == old(reader.open)[old(reader.next) := RootPath]
              && reader.closed == old(reader.closed) + Range(old(reader.next) + 1, reader.next)
  {
    r := ForKit(reader, target, fs, Vc19);
  }
}
