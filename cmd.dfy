/**
 * The command layer of libopkg/opkg_cmd.c: the table of command names with their
 * handlers, the lookup of a command by its exact name, the conversion of the
 * remaining arguments to a list of package names, the solver mode each command
 * hands to opkg_solv_process(), and the filling of the architecture vector from the
 * configured `arch` lines.
 */
module Cmd {
  import opened Wrappers
  import PkgState
  import Solv
  import Version

  /** The handler functions of the table; several names share one. */
  datatype Handler =
    | UpdateCmd | UpgradeCmd | ListCmd | ListInstalledCmd | ListUpgradableCmd
    | ListChangedConffilesCmd | InfoCmd | FlagCmd | StatusCmd | InstallCmd | RemoveCmd
    | CleanCmd | ConfigureCmd | FilesCmd | SearchCmd | DownloadCmd | CompareVersionsCmd
    | PrintArchitectureCmd | DependsCmd | WhatDependsCmd | WhatDependsRecCmd
    | WhatRecommendsCmd | WhatSuggestsCmd | WhatProvidesCmd | WhatReplacesCmd
    | WhatConflictsCmd

  /** An `opkg_cmd_t`: the name typed on the command line, whether arguments are required, the handler. */
  datatype Command = Command(name: string, requiresArgs: bool, fun: Handler)

  /** The entry at position `i` of the `cmds` table. */
  function CmdAt(i: nat): Command
    requires i < 33
  {
    match i
    case 0 => Command("update", false, UpdateCmd)
    case 1 => Command("upgrade", false, UpgradeCmd)
    case 2 => Command("list", false, ListCmd)
    case 3 => Command("list_installed", false, ListInstalledCmd)
    case 4 => Command("list-installed", false, ListInstalledCmd)
    case 5 => Command("list_upgradable", false, ListUpgradableCmd)
    case 6 => Command("list-upgradable", false, ListUpgradableCmd)
    case 7 => Command("list_changed_conffiles", false, ListChangedConffilesCmd)
    case 8 => Command("list-changed-conffiles", false, ListChangedConffilesCmd)
    case 9 => Command("info", false, InfoCmd)
    case 10 => Command("flag", true, FlagCmd)
    case 11 => Command("status", false, StatusCmd)
    case 12 => Command("install", true, InstallCmd)
    case 13 => Command("remove", true, RemoveCmd)
    case 14 => Command("clean", false, CleanCmd)
    case 15 => Command("configure", false, ConfigureCmd)
    case 16 => Command("files", true, FilesCmd)
    case 17 => Command("search", true, SearchCmd)
    case 18 => Command("download", true, DownloadCmd)
    case 19 => Command("compare_versions", true, CompareVersionsCmd)
    case 20 => Command("compare-versions", true, CompareVersionsCmd)
    case 21 => Command("print-architecture", false, PrintArchitectureCmd)
    case 22 => Command("print_architecture", false, PrintArchitectureCmd)
    case 23 => Command("print-installation-architecture", false, PrintArchitectureCmd)
    case 24 => Command("print_installation_architecture", false, PrintArchitectureCmd)
    case 25 => Command("depends", true, DependsCmd)
    case 26 => Command("whatdepends", true, WhatDependsCmd)
    case 27 => Command("whatdependsrec", true, WhatDependsRecCmd)
    case 28 => Command("whatrecommends", true, WhatRecommendsCmd)
    case 29 => Command("whatsuggests", true, WhatSuggestsCmd)
    case 30 => Command("whatprovides", true, WhatProvidesCmd)
    case 31 => Command("whatreplaces", true, WhatReplacesCmd)
    case _ => Command("whatconflicts", true, WhatConflictsCmd)
  }

  // ---------------------------------------------------------------------------
  // Lookup

  /** The `cmds` table, in its order. */
  function Cmds(): (t: seq<Command>)
    ensures |t| == 33 && forall i :: 0 <= i < 33 ==> t[i] == CmdAt(i)
  {
    seq(33, i requires 0 <= i < 33 => CmdAt(i))
  }

  /** The position of the first entry of `t` from `i` on named `name`, if any. */
  function FindFrom(t: seq<Command>, name: string, i: nat): (r: Option<nat>)
    requires i <= |t|
    decreases |t| - i
  {
    if i == |t| then None
    else if t[i].name == name then Some(i)
    else FindFrom(t, name, i + 1)
  }

  /** The entry opkg_cmd_find() returns for `name`, as its position in the table. */
  function Find(name: string): Option<nat> {
    FindFrom(Cmds(), name, 0)
  }

  /** FindFrom answers the first entry from `i` on with the name, and None when there is none. */
  lemma {:induction false} FindFromFirst(t: seq<Command>, name: string, i: nat)
    requires i <= |t|
    ensures var r := FindFrom(t, name, i);
      && (r.Some? ==> i <= r.value < |t| && t[r.value].name == name
                      && forall j :: i <= j < r.value ==> t[j].name != name)
      && (r.None? ==> forall j :: i <= j < |t| ==> t[j].name != name)
    decreases |t| - i
  {
    if i < |t| && t[i].name != name {
      FindFromFirst(t, name, i + 1);
    }
  }

  /** The lookup answers the first entry whose name equals the query exactly, and None when no entry has it. */
  lemma FindIsFirst(name: string)
    ensures Find(name).Some? ==> Find(name).value < |Cmds()| && Cmds()[Find(name).value].name == name
    ensures Find(name).Some? ==> forall j :: 0 <= j < Find(name).value ==> Cmds()[j].name != name
    ensures Find(name).None? <==> forall j :: 0 <= j < |Cmds()| ==> Cmds()[j].name != name
  {
    FindFromFirst(Cmds(), name, 0);
  }

  /** opkg_cmd_find(): walks the table and stops at the first entry whose name equals `name`. */
  method CmdFind(name: string) returns (r: Option<nat>)
    ensures r == Find(name)
    ensures r.Some? ==> r.value < |Cmds()| && Cmds()[r.value].name == name
  {
    var i := 0;
    while i < |Cmds()|
      invariant 0 <= i <= |Cmds()|
      invariant FindFrom(Cmds(), name, i) == Find(name)
    {
      if Cmds()[i].name == name {
        return Some(i);
      }
      i := i + 1;
    }
    return None;
  }

  /** The handler the lookup of `name` gives, if any. */
  function HandlerOf(name: string): Option<Handler> {
    match Find(name)
    case None => None
    case Some(k) => FindIsFirst(name); Some(Cmds()[k].fun)
  }

  /** A name that entry `k` carries and no earlier entry does is found at `k`. */
  lemma FoundFirst(name: string, k: nat)
    requires k < 33 && CmdAt(k).name == name && forall j :: 0 <= j < k ==> CmdAt(j).name != name
    ensures Find(name) == Some(k)
  {
    FindIsFirst(name);
  }

  // The underscore and hyphen spellings of a command reach the same handler: each
  // spelling is found at its own entry, and the two entries share the handler.

  lemma FindsListInstalledUnderscore()
    ensures Find("list_installed") == Some(3)
  {
    var name := "list_installed";
    FoundFirst(name, 3);
  }

  lemma FindsListInstalledHyphen()
    ensures Find("list-installed") == Some(4)
  {
    var name := "list-installed";
    FoundFirst(name, 4);
  }

  lemma ListInstalledAlias()
    ensures HandlerOf("list_installed") == HandlerOf("list-installed") == Some(ListInstalledCmd)
  {
    FindsListInstalledUnderscore();
    FindsListInstalledHyphen();
  }

  lemma FindsListUpgradableUnderscore()
    ensures Find("list_upgradable") == Some(5)
  {
    var name := "list_upgradable";
    FoundFirst(name, 5);
  }

  lemma FindsListUpgradableHyphen()
    ensures Find("list-upgradable") == Some(6)
  {
    var name := "list-upgradable";
    FoundFirst(name, 6);
  }

  lemma ListUpgradableAlias()
    ensures HandlerOf("list_upgradable") == HandlerOf("list-upgradable") == Some(ListUpgradableCmd)
  {
    FindsListUpgradableUnderscore();
    FindsListUpgradableHyphen();
  }

  lemma FindsListChangedConffilesUnderscore()
    ensures Find("list_changed_conffiles") == Some(7)
  {
    var name := "list_changed_conffiles";
    FoundFirst(name, 7);
  }

  lemma FindsListChangedConffilesHyphen()
    ensures Find("list-changed-conffiles") == Some(8)
  {
    var name := "list-changed-conffiles";
    FoundFirst(name, 8);
  }

  lemma ListChangedConffilesAlias()
    ensures HandlerOf("list_changed_conffiles") == HandlerOf("list-changed-conffiles") == Some(ListChangedConffilesCmd)
  {
    FindsListChangedConffilesUnderscore();
    FindsListChangedConffilesHyphen();
  }

  lemma FindsCompareVersionsUnderscore()
    ensures Find("compare_versions") == Some(19)
  {
    var name := "compare_versions";
    FoundFirst(name, 19);
  }

  lemma FindsCompareVersionsHyphen()
    ensures Find("compare-versions") == Some(20)
  {
    var name := "compare-versions";
    FoundFirst(name, 20);
  }

  lemma CompareVersionsAlias()
    ensures HandlerOf("compare_versions") == HandlerOf("compare-versions") == Some(CompareVersionsCmd)
  {
    FindsCompareVersionsUnderscore();
    FindsCompareVersionsHyphen();
  }

  lemma FindsPrintArchitectureHyphen()
    ensures Find("print-architecture") == Some(21)
  {
    var name := "print-architecture";
    FoundFirst(name, 21);
  }

  lemma FindsPrintArchitectureUnderscore()
    ensures Find("print_architecture") == Some(22)
  {
    var name := "print_architecture";
    FoundFirst(name, 22);
  }

  lemma PrintArchitectureAlias()
    ensures HandlerOf("print-architecture") == HandlerOf("print_architecture") == Some(PrintArchitectureCmd)
  {
    FindsPrintArchitectureHyphen();
    FindsPrintArchitectureUnderscore();
  }

  lemma FindsPrintInstallationArchitectureHyphen()
    ensures Find("print-installation-architecture") == Some(23)
  {
    var name := "print-installation-architecture";
    FoundFirst(name, 23);
  }

  lemma FindsPrintInstallationArchitectureUnderscore()
    ensures Find("print_installation_architecture") == Some(24)
  {
    var name := "print_installation_architecture";
    FoundFirst(name, 24);
  }

  lemma PrintInstallationArchitectureAlias()
    ensures HandlerOf("print-installation-architecture") == HandlerOf("print_installation_architecture") == Some(PrintArchitectureCmd)
  {
    FindsPrintInstallationArchitectureHyphen();
    FindsPrintInstallationArchitectureUnderscore();
  }

  // ---------------------------------------------------------------------------
  // Arguments and modes

  /** pkg_names_from_args(): NULL without arguments, otherwise every argument in order. */
  method PkgNamesFromArgs(argv: seq<string>) returns (names: Option<seq<string>>)
    ensures names.None? <==> |argv| == 0
    ensures names.Some? ==> names.value == argv
  {
    if |argv| == 0 {
      return None;
    }
    var l: seq<string> := [];
    var i := 0;
    while i < |argv|
      invariant 0 <= i <= |argv|
      invariant l == argv[..i]
    {
      l := l + [argv[i]];
      i := i + 1;
    }
    assert argv[..i] == argv;
    return Some(l);
  }

  /** The mode the command wrappers pass to opkg_solv_process(); the `flag` command takes its mode from its first argument instead. */
  function CommandMode(h: Handler): Option<Solv.Mode> {
    match h
    case InstallCmd => Some(Solv.Install)
    case RemoveCmd => Some(Solv.Remove)
    case UpgradeCmd => Some(Solv.DistUpgrade)
    case ListCmd => Some(Solv.List)
    case ListInstalledCmd => Some(Solv.ListInstalled)
    case FilesCmd => Some(Solv.Files)
    case InfoCmd => Some(Solv.Status)
    case StatusCmd => Some(Solv.Status)
    case _ => None
  }

  /** What running a command amounts to. */
  datatype Call =
    | Process(names: Option<seq<string>>, mode: Solv.Mode)  // opkg_solv_process(names, mode)
    | Fail(code: int)                                        // the command returns `code` at once
    | Elsewhere                                              // a handler outside this model

  /**
   * The wrappers: a command with a mode converts all its arguments to names; `flag`
   * reads its mode from its first argument, fails with -1 on an unknown word, and
   * converts the arguments after the first.  `flag` requires arguments, so there is
   * a first one.
   */
  function Dispatch(h: Handler, args: seq<string>): (c: Call)
    requires h == FlagCmd ==> |args| > 0
    ensures c.Fail? <==> h == FlagCmd && Solv.ModeFromFlagStr(args[0]) == Solv.Unknown
    ensures c.Fail? ==> c.code == -1
    ensures c.Elsewhere? <==> h != FlagCmd && CommandMode(h).None?
    ensures c.Process? && h != FlagCmd ==> Some(c.mode) == CommandMode(h) && c.names == (if args == [] then None else Some(args))
    ensures c.Process? && h == FlagCmd ==> c.mode == Solv.ModeFromFlagStr(args[0]) && c.names == (if |args| == 1 then None else Some(args[1..]))
  {
    if h == FlagCmd then
      var mode := Solv.ModeFromFlagStr(args[0]);
      if mode == Solv.Unknown then Fail(-1)
      else Process(if |args| == 1 then None else Some(args[1..]), mode)
    else match CommandMode(h)
      case None => Elsewhere
      case Some(mode) => Process(if args == [] then None else Some(args), mode)
  }

  /** `info` and `status` both ask for the status listing: the "installed only" argument of the shared wrapper is not used. */
  lemma InfoIsStatus(args: seq<string>)
    ensures Dispatch(InfoCmd, args) == Dispatch(StatusCmd, args)
    ensures Dispatch(InfoCmd, args).Process? && Dispatch(InfoCmd, args).mode == Solv.Status
  {
  }

  /** A `flag` command that reaches the solver carries one of the six flag modes, so it returns before any job is built. */
  lemma FlagCommandMode(args: seq<string>)
    requires |args| > 0
    ensures Dispatch(FlagCmd, args).Process? ==> Solv.IsFlagMode(Dispatch(FlagCmd, args).mode)
  {
    var w := args[0];
    var k := PkgState.IndexOfWord(Solv.ModeFlagMap, w);
    if k < |Solv.ModeFlagMap| {
      Solv.FlagModes(Solv.ModeFlagMap[k].value);
    }
  }

  /** Each command with a mode of its own hands the solver a mode outside the flag modes. */
  lemma CommandModesAreJobs(h: Handler)
    requires CommandMode(h).Some?
    ensures !Solv.IsFlagMode(CommandMode(h).value) && CommandMode(h).value != Solv.Unknown
  {
  }

  // ---------------------------------------------------------------------------
  // Architectures

  /** The number of leading characters of `s` that are decimal digits. */
  function LeadingDigits(s: string): (n: nat)
    ensures n <= |s| && forall i :: 0 <= i < n ==> Version.IsDigit(s[i])
    ensures n < |s| ==> !Version.IsDigit(s[n])
  {
    if |s| == 0 || !Version.IsDigit(s[0]) then 0 else 1 + LeadingDigits(s[1..])
  }

  /** The value of a string of decimal digits. */
  function DigitsValue(d: string): int
    requires forall i :: 0 <= i < |d| ==> Version.IsDigit(d[i])
  {
    if |d| == 0 then 0 else 10 * DigitsValue(d[..|d| - 1]) + (d[|d| - 1] as int - '0' as int)
  }

  /**
   * atoi(): leading white space is skipped, an optional sign read, and the decimal
   * digits after it taken; anything after them is ignored, and no digit gives 0.
   */
  function Atoi(s: string): int {
    var t := s[PkgState.SkipSpace(s, 0)..];
    var neg := |t| > 0 && t[0] == '-';
    var u := if |t| > 0 && (t[0] == '-' || t[0] == '+') then t[1..] else t;
    var v := DigitsValue(u[..LeadingDigits(u)]);
    if neg then -v else v
  }

  /** The decimal form of a natural number, without leading zeros. */
  function Decimal(n: nat): (d: string)
    ensures |d| > 0 && forall i :: 0 <= i < |d| ==> Version.IsDigit(d[i])
  {
    var last := ['0' + (n % 10) as char];
    if n < 10 then last else Decimal(n / 10) + last
  }

  /** Reading a decimal form back gives the number. */
  lemma {:induction false} DecimalValue(n: nat)
    ensures DigitsValue(Decimal(n)) == n
  {
    var d := Decimal(n);
    if n >= 10 {
      DecimalValue(n / 10);
      assert d[..|d| - 1] == Decimal(n / 10);
    }
  }

  /** A run of digits is read in full. */
  lemma {:induction false} LeadingDigitsAll(d: string)
    requires forall i :: 0 <= i < |d| ==> Version.IsDigit(d[i])
    ensures LeadingDigits(d) == |d|
  {
    if |d| > 0 {
      LeadingDigitsAll(d[1..]);
    }
  }

  /** A non-empty run of digits is read as its value. */
  lemma AtoiDigits(d: string)
    requires |d| > 0 && forall i :: 0 <= i < |d| ==> Version.IsDigit(d[i])
    ensures Atoi(d) == DigitsValue(d)
  {
    assert Version.IsDigit(d[0]) && !PkgState.IsSpace(d[0]) && d[0] != '-' && d[0] != '+';
    assert PkgState.SkipSpace(d, 0) == 0;
    assert d[0..] == d;
    LeadingDigitsAll(d);
    assert d[..LeadingDigits(d)] == d;
  }

  /** A minus sign followed by a non-empty run of digits is read as the negated value. */
  lemma AtoiNegDigits(d: string)
    requires |d| > 0 && forall i :: 0 <= i < |d| ==> Version.IsDigit(d[i])
    ensures Atoi("-" + d) == -DigitsValue(d)
  {
    var m := "-" + d;
    assert !PkgState.IsSpace(m[0]);
    assert PkgState.SkipSpace(m, 0) == 0;
    assert m[0..][1..] == d;
    LeadingDigitsAll(d);
    assert d[..LeadingDigits(d)] == d;
  }

  /** atoi() inverts the decimal form, with or without a minus sign in front. */
  lemma AtoiDecimal(n: nat)
    ensures Atoi(Decimal(n)) == n
    ensures Atoi("-" + Decimal(n)) == -(n as int)
  {
    DecimalValue(n);
    AtoiDigits(Decimal(n));
    AtoiNegDigits(Decimal(n));
  }

  /** A configured `arch` line: the architecture name and its priority as written. */
  datatype ArchConf = ArchConf(name: string, value: string)

  /** The vector after adding each configured architecture in turn to `s`. */
  function AddedAll(s: seq<Solv.Arch>, l: seq<ArchConf>): seq<Solv.Arch> {
    if l == [] then s
    else Solv.Inserted(AddedAll(s, l[..|l| - 1]), Solv.Arch(l[|l| - 1].name, Atoi(l[|l| - 1].value)))
  }

  /** The architectures added by populate_arch_list(), with their priorities. */
  function Configured(l: seq<ArchConf>): seq<Solv.Arch> {
    seq(|l|, i requires 0 <= i < |l| => Solv.Arch(l[i].name, Atoi(l[i].value)))
  }

  /** Adding every configured architecture keeps the vector sorted by priority. */
  lemma {:induction false} AddedAllSorted(s: seq<Solv.Arch>, l: seq<ArchConf>)
    requires Solv.Sorted(s)
    ensures Solv.Sorted(AddedAll(s, l))
  {
    if l != [] {
      var init := l[..|l| - 1];
      AddedAllSorted(s, init);
      Solv.InsertedSorted(AddedAll(s, init), Solv.Arch(l[|l| - 1].name, Atoi(l[|l| - 1].value)));
    }
  }

  /** The configured architectures of a list are those of its front followed by its last one. */
  lemma ConfiguredSnoc(l: seq<ArchConf>)
    requires l != []
    ensures Configured(l) == Configured(l[..|l| - 1]) + [Solv.Arch(l[|l| - 1].name, Atoi(l[|l| - 1].value))]
  {
    var init, n := l[..|l| - 1], |l| - 1;
    var whole := Configured(init) + [Solv.Arch(l[n].name, Atoi(l[n].value))];
    assert |whole| == |Configured(l)|;
    forall k | 0 <= k <= n
      ensures Configured(l)[k] == whole[k]
    {
      if k < n {
        assert init[k] == l[k];
      }
    }
    assert Configured(l) == whole;
  }

  /** Adding every configured architecture adds exactly those architectures and keeps the ones already there. */
  lemma {:induction false} AddedAllPermutes(s: seq<Solv.Arch>, l: seq<ArchConf>)
    ensures multiset(AddedAll(s, l)) == multiset(s) + multiset(Configured(l))
  {
    if l != [] {
      var init := l[..|l| - 1];
      var a := Solv.Arch(l[|l| - 1].name, Atoi(l[|l| - 1].value));
      var prev := AddedAll(s, init);
      assert AddedAll(s, l) == Solv.Inserted(prev, a);
      AddedAllPermutes(s, init);
      Solv.InsertedPermutes(prev, a);
      ConfiguredSnoc(l);
      assert multiset(Configured(l)) == multiset(Configured(init)) + multiset{a};
    }
  }

  /** populate_arch_list(): each configured architecture is added in list order, with priority atoi(value). */
  method PopulateArchList(v: Solv.ArchVec, archList: seq<ArchConf>)
    requires v.Valid()
    modifies v
    ensures v.Valid()
    ensures v.Contents() == AddedAll(old(v.Contents()), archList)
  {
    var i := 0;
    while i < |archList|
      invariant 0 <= i <= |archList|
      invariant v.Valid()
      invariant v.Contents() == AddedAll(old(v.Contents()), archList[..i])
    {
      v.AddArch(archList[i].name, Atoi(archList[i].value));
      assert archList[..i + 1][..i] == archList[..i];
      i := i + 1;
    }
    assert archList[..i] == archList;
  }
}
