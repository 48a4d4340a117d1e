/**
 * The package record of libopkg/pkg.c as far as the core reads and writes it: its
 * identity (name, architecture, version), its three states, the cached list of the
 * files it installed with the reference count guarding that cache, and the string
 * forms of its dependency lists.
 *
 * C strings are Dafny strings without NUL characters; a NULL pointer is `None`.
 */
module Pkg {
  import opened Wrappers
  import opened PkgState
  import opened CStrings

  /** An installation destination; `changed` asks for its status file to be rewritten. */
  class Dest {
    var changed: bool

    constructor ()
      ensures !changed
    {
      changed := false;
    }
  }

  /** A `pkg_t`: the fields the core reads or assigns. */
  class Package {
    const name: string
    const architecture: string
    const version: string
    const url: Option<string>
    const dest: Dest
    /** The package's solvable belongs to the pool's installed repository. */
    const inInstalledRepo: bool
    var localFilename: Option<string>
    var stateWant: int
    var stateFlag: Flags
    var stateStatus: int
    var installedFiles: Option<seq<string>>
    var installedFilesRefCnt: int

    /** pkg_init(): no state wanted, no flag, not installed, no file list cached. */
    constructor (name: string, architecture: string, version: string, url: Option<string>,
                 dest: Dest, inInstalledRepo: bool)
      ensures this.name == name && this.architecture == architecture && this.version == version
      ensures this.url == url && this.dest == dest && this.inInstalledRepo == inInstalledRepo
      ensures stateWant == SW_UNKNOWN && stateFlag == SF_OK && stateStatus == SS_NOT_INSTALLED
      ensures localFilename == None && installedFiles == None && installedFilesRefCnt == 0
    {
      this.name, this.architecture, this.version := name, architecture, version;
      this.url, this.dest, this.inInstalledRepo := url, dest, inInstalledRepo;
      localFilename := None;
      stateWant, stateFlag, stateStatus := SW_UNKNOWN, SF_OK, SS_NOT_INSTALLED;
      installedFiles, installedFilesRefCnt := None, 0;
    }

    /** The three states as one value. */
    function States(): (int, Flags, int)
      reads this
    {
      (stateWant, stateFlag, stateStatus)
    }

    /**
     * pkg_parse_status_str(): the three words of a "Status:" value set want, flags and
     * status; a value that does not hold three words leaves all three unchanged.
     */
    method ParseStatusStr(sstr: string)
      modifies this`stateWant, this`stateFlag, this`stateStatus
      ensures States() == StatusAfter(old(States()), sstr)
    {
      match ScanStatus(sstr)
      case None =>
      case Some((sw, sf, ss)) =>
        stateWant := WantFromStr(sw);
        stateFlag := FlagFromStr(sf);
        stateStatus := StatusFromStr(ss);
    }

    /**
     * pkg_restore_status(): every line of the saved status that starts with this
     * package's name, architecture and version hands the rest of the line to the status
     * parser; the result is 0 when some line matched and -1 otherwise.
     */
    method RestoreStatus(statusTmp: seq<string>) returns (res: int)
      modifies this`stateWant, this`stateFlag, this`stateStatus
      ensures res == 0 <==> exists k :: 0 <= k < |statusTmp| && PrefixFields(statusTmp[k], name, architecture, version).Some?
      ensures res == 0 || res == -1
      ensures States() == Restored(old(States()), statusTmp, name, architecture, version)
    {
      res := -1;
      var i := 0;
      while i < |statusTmp|
        invariant 0 <= i <= |statusTmp|
        invariant res == 0 <==> exists k :: 0 <= k < i && PrefixFields(statusTmp[k], name, architecture, version).Some?
        invariant res == 0 || res == -1
        invariant States() == Restored(old(States()), statusTmp[..i], name, architecture, version)
      {
        RestoredSnoc(old(States()), statusTmp, i, name, architecture, version);
        var rest := PrefixFields(statusTmp[i], name, architecture, version);
        if rest.Some? {
          ParseStatusStr(rest.value);
          res := 0;
        }
        i := i + 1;
      }
      assert statusTmp[..i] == statusTmp;
    }

    /**
     * pkg_get_installed_files(): takes a reference to the file list and loads it when
     * it is not cached.  `read` is what loading yields: the names, or None when the
     * list could not be extracted from the package.
     */
    method GetInstalledFiles(read: Option<seq<string>>) returns (files: Option<seq<string>>)
      modifies this`installedFiles, this`installedFilesRefCnt
      ensures installedFilesRefCnt == old(installedFilesRefCnt) + 1
      ensures installedFiles == if old(installedFiles).Some? then old(installedFiles) else read
      ensures files == installedFiles
      ensures States() == old(States()) && localFilename == old(localFilename)
    {
      installedFilesRefCnt := installedFilesRefCnt + 1;
      if installedFiles.Some? {
        return installedFiles;
      }
      installedFiles := read;
      files := installedFiles;
    }

    /**
     * pkg_free_installed_files(): drops one reference; the cached list is discarded
     * once no reference is left.
     */
    method FreeInstalledFiles()
      modifies this`installedFiles, this`installedFilesRefCnt
      ensures installedFilesRefCnt == old(installedFilesRefCnt) - 1
      ensures installedFiles == if installedFilesRefCnt > 0 then old(installedFiles) else None
      ensures States() == old(States()) && localFilename == old(localFilename)
    {
      installedFilesRefCnt := installedFilesRefCnt - 1;
      if installedFilesRefCnt > 0 {
        return;
      }
      installedFiles := None;
    }

    /**
     * A borrow followed by its release leaves the count as it was, and keeps the list
     * loaded exactly when someone else still holds a reference.
     */
    method BorrowInstalledFiles(read: Option<seq<string>>)
      modifies this`installedFiles, this`installedFilesRefCnt
      ensures installedFilesRefCnt == old(installedFilesRefCnt)
      ensures installedFiles == if installedFilesRefCnt > 0 then
                                  (if old(installedFiles).Some? then old(installedFiles) else read)
                                else None
      ensures States() == old(States()) && localFilename == old(localFilename)
    {
      var _ := GetInstalledFiles(read);
      FreeInstalledFiles();
    }
  }

  // ---------------------------------------------------------------------------
  // Restoring a saved status

  /** The states a "Status:" value leaves behind: its three words when it has them. */
  function StatusAfter(st: (int, Flags, int), sstr: string): (int, Flags, int) {
    match ParseStatus(sstr)
    case None => st
    case Some(t) => t
  }

  /** `line + n`, where stepping past the terminator is read as reaching an empty string. */
  function Skip(line: string, n: nat): (r: string)
    ensures |r| <= |line|
  {
    if n <= |line| then line[n..] else ""
  }

  /**
   * The test pkg_restore_status() applies to one line: the name, the architecture and
   * the version are each compared as a prefix (strncmp over their own length), and
   * one character is stepped over after each.  Some(rest) hands `rest` to the parser.
   */
  function PrefixFields(line: string, name: string, arch: string, version: string): Option<string> {
    if !(name <= line) then None
    else
      var a := Skip(line, |name| + 1);
      if !(arch <= a) then None
      else
        var v := Skip(a, |arch| + 1);
        if !(version <= v) then None
        else Some(Skip(v, |version| + 1))
  }

  /** The states after one status line: parsed when it matches, kept otherwise. */
  function RestoreLine(st: (int, Flags, int), line: string, name: string, arch: string, version: string): (int, Flags, int) {
    match PrefixFields(line, name, arch, version)
    case None => st
    case Some(rest) => StatusAfter(st, rest)
  }

  /** The states after the status lines `lines`, read in order, each matching one parsed. */
  function Restored(st: (int, Flags, int), lines: seq<string>, name: string, arch: string, version: string): (int, Flags, int)
    decreases |lines|
  {
    if lines == [] then st
    else RestoreLine(Restored(st, lines[..|lines| - 1], name, arch, version), lines[|lines| - 1], name, arch, version)
  }

  lemma RestoredSnoc(st: (int, Flags, int), lines: seq<string>, i: nat, name: string, arch: string, version: string)
    requires i < |lines|
    ensures Restored(st, lines[..i + 1], name, arch, version)
         == RestoreLine(Restored(st, lines[..i], name, arch, version), lines[i], name, arch, version)
  {
    assert lines[..i + 1][..i] == lines[..i];
  }

  /** When no line matches, the states are left as they were. */
  lemma {:induction false} RestoredNoMatch(st: (int, Flags, int), lines: seq<string>, name: string, arch: string, version: string)
    requires forall k :: 0 <= k < |lines| ==> PrefixFields(lines[k], name, arch, version).None?
    ensures Restored(st, lines, name, arch, version) == st
    decreases |lines|
  {
    if lines != [] {
      var init := lines[..|lines| - 1];
      assert forall k :: 0 <= k < |init| ==> init[k] == lines[k];
      RestoredNoMatch(st, init, name, arch, version);
    }
  }

  /** A line that does not match, or matches without three status words, changes nothing. */
  predicate Inert(line: string, name: string, arch: string, version: string) {
    var m := PrefixFields(line, name, arch, version);
    m.None? || ParseStatus(m.value).None?
  }

  /** Lines after the last matching line with a parsable status leave the states as that line left them. */
  lemma {:induction false} RestoredAfter(st: (int, Flags, int), lines: seq<string>, k: nat,
                                         name: string, arch: string, version: string)
    requires k < |lines|
    requires forall l :: k < l < |lines| ==> Inert(lines[l], name, arch, version)
    ensures Restored(st, lines, name, arch, version)
         == RestoreLine(Restored(st, lines[..k], name, arch, version), lines[k], name, arch, version)
    decreases |lines|
  {
    var init := lines[..|lines| - 1];
    if k < |lines| - 1 {
      assert forall l :: 0 <= l < |init| ==> init[l] == lines[l];
      assert init[..k] == lines[..k];
      RestoredAfter(st, init, k, name, arch, version);
    } else {
      assert init == lines[..k];
    }
  }

  /**
   * The last matching line whose status parses decides: after it, the states are those
   * it holds, whatever came before and whatever follows that does not match or holds
   * fewer than three words.
   */
  lemma RestoredLastMatch(st: (int, Flags, int), lines: seq<string>, k: nat,
                          name: string, arch: string, version: string)
    requires k < |lines| && PrefixFields(lines[k], name, arch, version).Some?
    requires ParseStatus(PrefixFields(lines[k], name, arch, version).value).Some?
    requires forall l :: k < l < |lines| ==> Inert(lines[l], name, arch, version)
    ensures Restored(st, lines, name, arch, version) == ParseStatus(PrefixFields(lines[k], name, arch, version).value).value
  {
    RestoredAfter(st, lines, k, name, arch, version);
  }

  // ---------------------------------------------------------------------------
  // A status line that names its fields exactly

  /** The prefix a saved status line carries for a package: its three fields, each followed by a space. */
  function Header(name: string, arch: string, version: string): string {
    name + " " + arch + " " + version + " "
  }

  /**
   * The evidently intended test: the line starts with the three fields, each ended by
   * a space; Some(rest) is what follows them.
   */
  function ExactFields(line: string, name: string, arch: string, version: string): (r: Option<string>)
    ensures r.Some? ==> line == Header(name, arch, version) + r.value
  {
    var h := Header(name, arch, version);
    if h <= line then Some(line[|h|..]) else None
  }

  /** If `x + " " + p` starts `y + " " + q` and neither word holds a space, the words are equal. */
  lemma SameWord(x: string, p: string, y: string, q: string)
    requires NoSpace(x) && NoSpace(y)
    ensures x + " " + p <= y + " " + q ==> x == y && p <= q
  {
    var l, r := x + " " + p, y + " " + q;
    if |x| < |y| {
      assert l[|x|] == ' ' && r[|x|] == y[|x|];
    } else if |x| > |y| {
      assert |l| > |y| && l[|y|] == x[|y|] && r[|y|] == ' ';
    } else if l <= r {
      assert x == l[..|x|] == r[..|x|] == y;
      assert p == l[|x| + 1..] && q == r[|y| + 1..];
    }
  }

  /** A line written for a package is found again, with its status intact. */
  lemma ExactFieldsFindsOwnLine(name: string, arch: string, version: string, st: string)
    ensures ExactFields(Header(name, arch, version) + st, name, arch, version) == Some(st)
  {
    var h := Header(name, arch, version);
    assert (h + st)[..|h|] == h && (h + st)[|h|..] == st;
  }

  /** With space-free fields, a line written for another name, architecture or version never matches. */
  lemma ExactFieldsRejectsOthers(name: string, arch: string, version: string,
                                 name': string, arch': string, version': string, st: string)
    requires NoSpace(name) && NoSpace(arch) && NoSpace(version)
    requires NoSpace(name') && NoSpace(arch') && NoSpace(version')
    requires (name, arch, version) != (name', arch', version')
    ensures ExactFields(Header(name', arch', version') + st, name, arch, version).None?
  {
    var line := Header(name', arch', version') + st;
    if Header(name, arch, version) <= line {
      var a, b := arch + " " + version + " ", arch' + " " + version' + " " + st;
      assert Header(name, arch, version) == name + " " + a;
      assert line == name' + " " + b;
      SameWord(name, a, name', b);
      assert a == arch + " " + (version + " ");
      assert b == arch' + " " + (version' + " " + st);
      SameWord(arch, version + " ", arch', version' + " " + st);
      assert version + " " == version + " " + "";
      SameWord(version, "", version', st);
      assert false;
    }
  }

  /** A field followed by one character: the prefix test passes and the step lands after that character. */
  lemma SkipField(w: string, c: char, s: string)
    ensures w <= w + [c] + s && Skip(w + [c] + s, |w| + 1) == s
  {
    assert (w + [c] + s)[..|w|] == w;
    assert (w + [c] + s)[|w| + 1..] == s;
  }

  /**
   * The test as written never looks at the character after the version: a line for
   * version "1.0.1" (`c` == '.', `rest` == "1 install ok installed") is taken for
   * version "1.0", and "1 install ok installed" is handed to the parser.
   */
  lemma PrefixFieldsIgnoresSeparator(name: string, arch: string, version: string, c: char, rest: string)
    ensures PrefixFields(name + " " + arch + " " + version + [c] + rest, name, arch, version) == Some(rest)
  {
    var v := version + [c] + rest;
    var a := arch + [' '] + v;
    assert " " == [' '];
    assert name + " " + arch + " " + version + [c] + rest == name + [' '] + a;
    SkipField(name, ' ', a);
    SkipField(arch, ' ', v);
    SkipField(version, c, rest);
  }

  /** The exact test rejects every such line whose `c` is not a space. */
  lemma ExactFieldsNeedsSpace(name: string, arch: string, version: string, c: char, rest: string)
    requires c != ' '
    ensures ExactFields(name + " " + arch + " " + version + [c] + rest, name, arch, version) == None
  {
    var line := name + " " + arch + " " + version + [c] + rest;
    var h := Header(name, arch, version);
    assert |h| <= |line| && line[|h| - 1] == c && h[|h| - 1] == ' ';
  }

  // ---------------------------------------------------------------------------
  // Dependency lists

  /** A dependency as pool_dep2str() spells it, shown the way the fields show it: `name` or `name (rest)`. */
  function FormatDep(dep: string): string {
    match IndexOf(dep, ' ')
    case None => dep
    case Some(k) => dep[..k] + " (" + dep[k + 1..] + ")"
  }

  /** The reverse of FormatDep: `name (rest)` back to `name rest`. */
  function UnformatDep(field: string): string {
    match IndexOf(field, ' ')
    case None => field
    case Some(k) => if k + 3 <= |field| then field[..k] + " " + field[k + 2..|field| - 1] else field
  }

  /** Formatting a dependency loses nothing: it can be read back. */
  lemma FormatDepRoundTrip(dep: string)
    ensures UnformatDep(FormatDep(dep)) == dep
  {
    match IndexOf(dep, ' ')
    case None =>
    case Some(k) =>
      var f := FormatDep(dep);
      assert f == dep[..k] + " (" + dep[k + 1..] + ")";
      IndexOfAt(f, ' ', k);
      assert f[..k] == dep[..k];
      assert f[k + 2..|f| - 1] == dep[k + 1..];
      assert dep == dep[..k] + " " + dep[k + 1..];
  }

  /** Each dependency in field form. */
  function FormatAll(deps: seq<string>): (r: seq<string>)
    ensures |r| == |deps| && forall k :: 0 <= k < |deps| ==> r[k] == FormatDep(deps[k])
  {
    seq(|deps|, k requires 0 <= k < |deps| => FormatDep(deps[k]))
  }

  /** The entries get_solv_dep() shows: for the provides list the last one, the package itself, is dropped. */
  function Shown(deps: seq<string>, isProvides: bool): seq<string> {
    if isProvides && |deps| > 0 then deps[..|deps| - 1] else deps
  }

  /** What get_solv_dep() returns: NULL for nothing to show, else the entries joined by ", ". */
  function DepField(deps: seq<string>, isProvides: bool): Option<string> {
    var shown := Shown(deps, isProvides);
    if shown == [] then None else Some(Join(FormatAll(shown), ", "))
  }

  /** Every shown entry, in order, and only those: a field with one entry per dependency shown. */
  lemma DepFieldEntries(deps: seq<string>, isProvides: bool)
    ensures DepField(deps, isProvides).None? <==> |deps| == 0 || (isProvides && |deps| == 1)
    ensures DepField(deps, isProvides).Some? ==>
      DepField(deps, isProvides).value == Join(FormatAll(Shown(deps, isProvides)), ", ")
    ensures |Shown(deps, isProvides)| == if isProvides && |deps| > 0 then |deps| - 1 else |deps|
  {
  }

  lemma FormatAllSnoc(deps: seq<string>, i: nat)
    requires i < |deps|
    ensures FormatAll(deps[..i + 1]) == FormatAll(deps[..i]) + [FormatDep(deps[i])]
  {
  }

  /** One entry of get_solv_dep(): the name, then the version in parentheses when there is one. */
  method DepEntry(dep: string) returns (entry: string)
    ensures entry == FormatDep(dep)
  {
    var ver := IndexOf(dep, ' ');
    var nameLen := if ver.Some? then ver.value else |dep|;
    entry := dep[..nameLen];
    if ver.Some? {
      entry := entry + " (" + dep[ver.value + 1..] + ")";
    }
  }

  /**
   * get_solv_dep(): walks the dependency array of a solvable, which `deps` stands for,
   * and grows the result one entry at a time.
   */
  method GetSolvDep(deps: seq<string>, isProvides: bool) returns (res: Option<string>)
    ensures res == DepField(deps, isProvides)
  {
    res := None;
    var first := true;
    var i := 0;
    while i < |deps|
      invariant 0 <= i <= |deps|
      invariant isProvides && |deps| > 0 ==> i < |deps|
      invariant first <==> i == 0
      invariant res == if i == 0 then None else Some(Join(FormatAll(deps[..i]), ", "))
    {
      if isProvides && i + 1 == |deps| {
        break;
      }
      var entry := DepEntry(deps[i]);
      FormatAllSnoc(deps, i);
      if first {
        res := Some(entry);
        first := false;
      } else {
        JoinSnoc(FormatAll(deps[..i]), entry, ", ");
        res := Some(res.value + ", " + entry);
      }
      i := i + 1;
    }
    assert i == |Shown(deps, isProvides)|;
    assert deps[..i] == Shown(deps, isProvides);
  }
}
