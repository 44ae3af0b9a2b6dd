/**
 * `initialize_libraries` and the resolution of the three native library
 * paths. The operating system name, the machine name, the `PROGRAMFILES`
 * variable and the file-existence test are parameters.
 */
module Initializer {
  import opened Wrappers
  import opened Seqs

  datatype InitError =
    | FileNotFoundError           // no compatible Azure Kinect SDK under Program Files
    | OSError(system: string)     // the operating system is neither Linux nor Windows
    | SDKNotImplemented           // body tracking on ARM

  /** What the resolvers ask of the host. */
  datatype Host = Host(system: string, machine: string, programFiles: Option<string>, pathExists: string -> bool)

  function LowerChar(c: char): char
  {
    if 'A' <= c <= 'Z' then (c as int - 'A' as int + 'a' as int) as char else c
  }

  /** `str.lower()` on ASCII letters. */
  function Lower(s: string): (r: string)
    ensures |r| == |s| && forall i :: 0 <= i < |s| ==> r[i] == LowerChar(s[i])
  {
    seq(|s|, i requires 0 <= i < |s| => LowerChar(s[i]))
  }

  /** The folder of the system-wide `libk4a.so`, by machine. */
  function LinuxLibDir(h: Host): string
  {
    if Lower(h.machine) == "aarch64" then "/usr/lib/aarch64-linux-gnu" else "/usr/lib/x86_64-linux-gnu"
  }

  /** `dir/name` as POSIX writes it. */
  function PosixJoin(dir: string, name: string): string
  {
    dir + "/" + name
  }

  const DefaultProgramFiles: string := "C:\\Program Files"

  /** `Path(base) / part` as Windows prints it. */
  function Join(base: string, part: string): string
  {
    base + "\\" + part
  }

  function ProgramFiles(h: Host): string
  {
    if h.programFiles.Some? then h.programFiles.value else DefaultProgramFiles
  }

  /** The folder that holds `k4a.dll` for one SDK version. */
  function K4aBinDir(h: Host, version: string): string
  {
    var arch := if Lower(h.machine) == "amd64" then "amd64" else "x86";
    ProgramFiles(h) + "\\Azure Kinect SDK " + version + "\\sdk\\windows-desktop\\" + arch + "\\release\\bin"
  }

  function K4aDll(h: Host, version: string): string
  {
    Join(K4aBinDir(h, version), "k4a.dll")
  }

  const K4abtBinDir: string := "\\Azure Kinect Body Tracking SDK\\sdk\\windows-desktop\\amd64\\release\\bin"

  function K4abtDll(h: Host): string
  {
    Join(ProgramFiles(h) + K4abtBinDir, "k4abt.dll")
  }

  /**
   * `_get_k4a_module_path`: on Linux, by machine; on Windows, the first
   * SDK version (v1.4.2, then v1.4.1) whose `k4a.dll` exists.
   */
  function K4aModulePath(h: Host): (r: Result<string, InitError>)
    ensures Lower(h.system) == "linux" ==> r == Ok(PosixJoin(LinuxLibDir(h), "libk4a.so"))
    ensures Lower(h.system) == "windows" ==>
      (r.Ok? <==> h.pathExists(K4aDll(h, "v1.4.2")) || h.pathExists(K4aDll(h, "v1.4.1")))
    ensures Lower(h.system) == "windows" && r.Ok? ==>
      h.pathExists(r.value) && (r.value == K4aDll(h, "v1.4.2") || r.value == K4aDll(h, "v1.4.1"))
    ensures Lower(h.system) == "windows" && h.pathExists(K4aDll(h, "v1.4.2")) ==> r == Ok(K4aDll(h, "v1.4.2"))
    ensures Lower(h.system) == "windows" && r.Err? ==> r.error == FileNotFoundError
    ensures Lower(h.system) !in {"linux", "windows"} ==> r == Err(OSError(Lower(h.system)))
  {
    var system := Lower(h.system);
    if system == "linux" then
      Ok(PosixJoin(LinuxLibDir(h), "libk4a.so"))
    else if system == "windows" then
      if h.pathExists(K4aDll(h, "v1.4.2")) then Ok(K4aDll(h, "v1.4.2"))
      else if h.pathExists(K4aDll(h, "v1.4.1")) then Ok(K4aDll(h, "v1.4.1"))
      else Err(FileNotFoundError)
    else Err(OSError(system))
  }

  /**
   * `_get_k4abt_module_path`: ARM is refused whatever the system; Linux
   * loads by library name; Windows takes the SDK's full path when it
   * exists and falls back to the bare DLL name.
   */
  function K4abtModulePath(h: Host): (r: Result<string, InitError>)
    ensures Lower(h.machine) == "aarch64" ==> r == Err(SDKNotImplemented)
    ensures Lower(h.machine) != "aarch64" && Lower(h.system) == "linux" ==> r == Ok("libk4abt.so")
    ensures Lower(h.machine) != "aarch64" && Lower(h.system) == "windows" ==>
      r.Ok? && (r.value == K4abtDll(h) <==> h.pathExists(K4abtDll(h)))
      && (!h.pathExists(K4abtDll(h)) ==> r.value == "k4abt.dll")
    ensures Lower(h.machine) != "aarch64" && Lower(h.system) !in {"linux", "windows"} ==>
      r == Err(OSError(Lower(h.system)))
  {
    var system := Lower(h.system);
    if Lower(h.machine) == "aarch64" then Err(SDKNotImplemented)
    else if system == "linux" then Ok("libk4abt.so")
    else if system == "windows" then
      assert K4abtDll(h) != "k4abt.dll" by {
        assert |K4abtDll(h)| > |"k4abt.dll"|;
      }
      if h.pathExists(K4abtDll(h)) then Ok(K4abtDll(h)) else Ok("k4abt.dll")
    else Err(OSError(system))
  }

  /** `s` has `pat` starting at position `i`. */
  predicate At(s: string, pat: string, i: nat)
  {
    i + |pat| <= |s| && s[i..i + |pat|] == pat
  }

  /**
   * `s.replace(pat, rep)`: left to right, every occurrence of `pat` that
   * does not overlap an earlier replaced one becomes `rep`.
   */
  function ReplaceAll(s: string, pat: string, rep: string): (r: string)
    requires |pat| > 0
    decreases |s|
  {
    if |s| < |pat| then s
    else if s[..|pat|] == pat then rep + ReplaceAll(s[|pat|..], pat, rep)
    else [s[0]] + ReplaceAll(s[1..], pat, rep)
  }

  /** Text without an occurrence of `pat` is left as it is. */
  lemma {:induction false} ReplaceNothing(s: string, pat: string, rep: string)
    requires |pat| > 0 && forall i :: 0 <= i < |s| ==> !At(s, pat, i)
    ensures ReplaceAll(s, pat, rep) == s
    decreases |s|
  {
    if |s| >= |pat| {
      assert !At(s, pat, 0);
      forall i | 0 <= i < |s| - 1
        ensures !At(s[1..], pat, i)
      {
        assert !At(s, pat, i + 1);
        if i + |pat| <= |s| - 1 {
          assert s[1..][i..i + |pat|] == s[i + 1..i + 1 + |pat|];
        }
      }
      ReplaceNothing(s[1..], pat, rep);
    }
  }

  /** The library name `replace` looks for, and its record counterpart. */
  const K4aName: string := "k4a"
  const K4arecordName: string := "k4arecord"

  /** `_get_k4arecord_module_path`: every "k4a" becomes "k4arecord". */
  function RecordPath(modulePath: string): string
  {
    ReplaceAll(modulePath, K4aName, K4arecordName)
  }

  /** An occurrence at the front is replaced and the scan resumes after it. */
  lemma MatchStep(s: string, pat: string, rep: string)
    requires |pat| > 0 && |s| >= |pat| && s[..|pat|] == pat
    ensures ReplaceAll(s, pat, rep) == rep + ReplaceAll(s[|pat|..], pat, rep)
  {
  }

  /** One unmatched character is copied and the scan moves on. */
  lemma CopyStep(s: string, pat: string, rep: string)
    requires |pat| > 0 && |s| > 0 && (|s| < |pat| || s[..|pat|] != pat)
    ensures ReplaceAll(s, pat, rep) == [s[0]] + ReplaceAll(s[1..], pat, rep)
  {
    if |s| < |pat| {
      assert ReplaceAll(s[1..], pat, rep) == s[1..];
      assert s == [s[0]] + s[1..];
    }
  }

  /** The occurrence at the front of `a` ends inside `a`, so it is replaced the same way in `a + b`. */
  lemma {:induction false} SplitsMatch(a: string, b: string, pat: string, rep: string)
    requires |pat| > 0 && |a| > |pat| && a[..|pat|] == pat
    requires ReplaceAll(a[|pat|..] + b, pat, rep) == ReplaceAll(a[|pat|..], pat, rep) + ReplaceAll(b, pat, rep)
    ensures ReplaceAll(a + b, pat, rep) == ReplaceAll(a, pat, rep) + ReplaceAll(b, pat, rep)
  {
      ConcatAfter(a, b, |pat|);
      MatchStep(a + b, pat, rep);
      MatchStep(a, pat, rep);
      Regroup(rep, ReplaceAll(a[|pat|..], pat, rep), ReplaceAll(b, pat, rep));
  }

  /** An unmatched front of `a` stays unmatched in `a + b` when `a` ends in a character outside `pat`. */
  lemma NoFrontMatch(a: string, b: string, pat: string)
    requires |pat| > 0 && |a| > 0 && a[|a| - 1] !in pat && (|a| < |pat| || a[..|pat|] != pat)
    ensures |a + b| < |pat| || (a + b)[..|pat|] != pat
  {
    var s := a + b;
    if |s| >= |pat| {
      if |a| < |pat| {
        assert s[..|pat|][|a| - 1] == a[|a| - 1] != pat[|a| - 1];
      } else {
        assert a[..|pat|] == s[..|pat|];
      }
    }
  }

  /** The copied first character of `a` is copied from `a + b` as well. */
  lemma SplitsCopy(a: string, b: string, pat: string, rep: string)
    requires |pat| > 0 && |a| > 0
    requires |a| < |pat| || a[..|pat|] != pat
    requires |a + b| < |pat| || (a + b)[..|pat|] != pat
    requires ReplaceAll(a[1..] + b, pat, rep) == ReplaceAll(a[1..], pat, rep) + ReplaceAll(b, pat, rep)
    ensures ReplaceAll(a + b, pat, rep) == ReplaceAll(a, pat, rep) + ReplaceAll(b, pat, rep)
  {
    ConcatAfter(a, b, 1);
    CopyStep(a + b, pat, rep);
    CopyStep(a, pat, rep);
    Regroup([a[0]], ReplaceAll(a[1..], pat, rep), ReplaceAll(b, pat, rep));
  }

  /**
   * Replacing splits at a character that cannot be part of `pat`: no
   * occurrence straddles the boundary, so each side is replaced alone.
   */
  lemma {:induction false} ReplaceSplits(a: string, b: string, pat: string, rep: string)
    requires |pat| > 0 && (a == [] || a[|a| - 1] !in pat)
    ensures ReplaceAll(a + b, pat, rep) == ReplaceAll(a, pat, rep) + ReplaceAll(b, pat, rep)
    decreases |a|
  {
    if a == [] {
      assert a + b == b;
    } else if |a| >= |pat| && a[..|pat|] == pat {
      assert |a| > |pat| by {
        assert a[|pat| - 1] == pat[|pat| - 1];
      }
      ReplaceSplits(a[|pat|..], b, pat, rep);
      SplitsMatch(a, b, pat, rep);
    } else {
      ReplaceSplits(a[1..], b, pat, rep);
      NoFrontMatch(a, b, pat);
      SplitsCopy(a, b, pat, rep);
    }
  }

  /** Text shorter than `pat` cannot hold it. */
  lemma ShortStep(s: string, pat: string, rep: string)
    requires 0 < |pat| && |s| < |pat|
    ensures ReplaceAll(s, pat, rep) == s
  {
  }

  /** Characters that cannot start `pat` are copied one by one. */
  lemma {:induction false} CopyPrefix(p: string, x: string, pat: string, rep: string)
    requires |pat| > 0 && pat[0] !in p
    ensures ReplaceAll(p + x, pat, rep) == p + ReplaceAll(x, pat, rep)
    decreases |p|
  {
    if p == [] {
      assert p + x == x;
    } else {
      ConcatAfter(p, x, 1);
      assert |p + x| < |pat| || (p + x)[..|pat|] != pat by {
        assert |p + x| >= |pat| ==> (p + x)[..|pat|][0] == p[0] != pat[0];
      }
      CopyStep(p + x, pat, rep);
      CopyPrefix(p[1..], x, pat, rep);
      Regroup([p[0]], p[1..], ReplaceAll(x, pat, rep));
      assert [p[0]] + p[1..] == p;
    }
  }

  /** A name holding `pat` once, between parts that cannot start it, has that occurrence replaced. */
  lemma SwapName(pre: string, post: string, pat: string, rep: string)
    requires |pat| > 0 && pat[0] !in pre && pat[0] !in post
    ensures ReplaceAll(pre + pat + post, pat, rep) == pre + rep + post
  {
    Regroup(pre, pat, post);
    CopyPrefix(pre, pat + post, pat, rep);
    ConcatAfter(pat, post, |pat|);
    MatchStep(pat + post, pat, rep);
    CopyPrefix(post, [], pat, rep);
    assert post + [] == post;
    ShortStep([], pat, rep);
    Regroup(pre, rep, post);
  }

  /**
   * Renaming a file whose folder ends in a separator outside `pat`: the
   * folder is replaced on its own and the file name as above.
   */
  lemma RenameBeside(folder: string, pre: string, post: string, pat: string, rep: string)
    requires |pat| > 0 && |folder| > 0 && folder[|folder| - 1] !in pat && pat[0] !in pre && pat[0] !in post
    ensures ReplaceAll(folder + (pre + pat + post), pat, rep) == ReplaceAll(folder, pat, rep) + (pre + rep + post)
  {
    ReplaceSplits(folder, pre + pat + post, pat, rep);
    SwapName(pre, post, pat, rep);
  }

  /** `libk4a.so` in a folder has its record library `libk4arecord.so` beside it. */
  lemma RecordBesideSo(dir: string)
    ensures RecordPath(PosixJoin(dir, "libk4a.so")) == RecordPath(dir + "/") + "libk4arecord.so"
  {
    assert (dir + "/")[|dir + "/"| - 1] == '/';
    RenameBeside(dir + "/", "lib", ".so", K4aName, K4arecordName);
    assert "lib" + K4aName + ".so" == "libk4a.so";
    assert "lib" + K4arecordName + ".so" == "libk4arecord.so";
  }

  /** `k4a.dll` in a folder has its record library `k4arecord.dll` beside it. */
  lemma RecordBesideDll(dir: string)
    ensures RecordPath(Join(dir, "k4a.dll")) == RecordPath(dir + "\\") + "k4arecord.dll"
  {
    assert (dir + "\\")[|dir + "\\"| - 1] == '\\';
    RenameBeside(dir + "\\", "", ".dll", K4aName, K4arecordName);
    assert "" + K4aName + ".dll" == "k4a.dll";
    assert "" + K4arecordName + ".dll" == "k4arecord.dll";
  }

  /** Text without the first character of `pat` holds no occurrence of it. */
  lemma LacksFirst(s: string, pat: string)
    requires |pat| > 0 && pat[0] !in s
    ensures forall i :: 0 <= i < |s| ==> !At(s, pat, i)
  {
  }

  /**
   * The Linux folders hold no "k4a", so on Linux the record library is
   * `libk4arecord.so` in the very folder of `libk4a.so`.
   */
  lemma LinuxRecordBeside(h: Host)
    ensures RecordPath(PosixJoin(LinuxLibDir(h), "libk4a.so")) == PosixJoin(LinuxLibDir(h), "libk4arecord.so")
  {
    var dir := LinuxLibDir(h) + "/";
    assert 'k' !in dir by {
      if Lower(h.machine) == "aarch64" {
        assert dir == "/usr/lib/aarch64-linux-gnu/";
      } else {
        assert dir == "/usr/lib/x86_64-linux-gnu/";
      }
    }
    LacksFirst(dir, K4aName);
    ReplaceNothing(dir, K4aName, K4arecordName);
    RecordBesideSo(LinuxLibDir(h));
  }

  /**
   * The record library of `p`: the file name becomes `libk4arecord.so` or
   * `k4arecord.dll`, and the folder goes through the same replace.
   */
  ghost predicate RecordBeside(p: string)
  {
    exists dir :: || (p == PosixJoin(dir, "libk4a.so") && RecordPath(p) == RecordPath(dir + "/") + "libk4arecord.so")
                  || (p == Join(dir, "k4a.dll") && RecordPath(p) == RecordPath(dir + "\\") + "k4arecord.dll")
  }

  /**
   * Whatever path the k4a resolver picks, its record path renames the file
   * and puts the folder through the same replace; on Linux the folder stays
   * as it is.
   */
  lemma RecordBesideK4a(h: Host)
    requires K4aModulePath(h).Ok?
    ensures RecordBeside(K4aModulePath(h).value)
    ensures Lower(h.system) == "linux" ==> RecordPath(K4aModulePath(h).value) == PosixJoin(LinuxLibDir(h), "libk4arecord.so")
  {
    if Lower(h.system) == "linux" {
      RecordBesideSo(LinuxLibDir(h));
      LinuxRecordBeside(h);
    } else {
      var version := if h.pathExists(K4aDll(h, "v1.4.2")) then "v1.4.2" else "v1.4.1";
      RecordBesideDll(K4aBinDir(h, version));
    }
  }

  /** A call into one of the three native libraries' `setup_library`. */
  datatype Setup = SetupK4a(path: string) | SetupK4abt(path: string) | SetupK4arecord(path: string)

  /**
   * `initialize_libraries`: sets up k4a (resolving its path unless one is
   * given), then k4abt only when tracking bodies, then the record library
   * from the k4a path actually used. A failed resolution raises, after the
   * setups already made.
   */
  method InitializeLibraries(h: Host, k4aPath: Option<string>, k4abtPath: Option<string>, trackBody: bool)
    returns (calls: seq<Setup>, error: Option<InitError>)
    ensures var k4a := if k4aPath.Some? then Ok(k4aPath.value) else K4aModulePath(h);
      var k4abt := if k4abtPath.Some? then Ok(k4abtPath.value) else K4abtModulePath(h);
      && (k4a.Err? ==> calls == [] && error == Some(k4a.error))
      && (k4a.Ok? && trackBody && k4abt.Err? ==> calls == [SetupK4a(k4a.value)] && error == Some(k4abt.error))
      && (k4a.Ok? && trackBody && k4abt.Ok? ==>
            calls == [SetupK4a(k4a.value), SetupK4abt(k4abt.value), SetupK4arecord(RecordPath(k4a.value))]
            && error == None)
      && (k4a.Ok? && !trackBody ==>
            calls == [SetupK4a(k4a.value), SetupK4arecord(RecordPath(k4a.value))] && error == None)
    ensures error == None <==> |calls| > 0 && calls[|calls| - 1].SetupK4arecord?
    ensures (exists i :: 0 <= i < |calls| && calls[i].SetupK4abt?) ==> trackBody
  {
    calls := [];
    var path: string;
    if k4aPath.Some? {
      path := k4aPath.value;
    } else {
      var resolved := K4aModulePath(h);
      if resolved.Err? {
        return [], Some(resolved.error);
      }
      path := resolved.value;
    }
    calls := calls + [SetupK4a(path)];
    if trackBody {
      var btPath: string;
      if k4abtPath.Some? {
        btPath := k4abtPath.value;
      } else {
        var resolved := K4abtModulePath(h);
        if resolved.Err? {
          return calls, Some(resolved.error);
        }
        btPath := resolved.value;
      }
      calls := calls + [SetupK4abt(btPath)];
    }
    calls := calls + [SetupK4arecord(RecordPath(path))];
    error := None;
  }
}
