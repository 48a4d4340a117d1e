/**
 * The deterministic bookkeeping libopkg/opkg_solv.c does around the libsolv solver:
 * the priority-ordered architecture list and the policy string made from it, the
 * modes a command runs in and what each mode leads to, the words of the `flag`
 * command and the states they store, the decoration of solver jobs, the choice of
 * what goes into a status file, and the state change after a package is configured.
 *
 * The solver itself (solving, transactions, selections) is libsolv's and is not
 * part of this model; where its answers matter they are parameters.
 */
module Solv {
  import opened Wrappers
  import opened CStrings
  import opened PkgState
  import opened Pkg

  // ---------------------------------------------------------------------------
  // Modes

  /**
   * opkg_solv_mode_t in declaration order.  The code also uses MODE_STATUS and
   * MODE_STATUS_INSTALLED, which the enumeration does not declare; they are placed
   * after the last flag mode.
   */
  datatype Mode =
    | Unknown | Install | Remove | Upgrade | DistUpgrade | Files | List | ListInstalled
    | FlagHold | FlagNoprune | FlagUser | FlagOk | FlagInstalled | FlagUnpacked
    | Status | StatusInstalled

  /** The enumerator's integer value. */
  function Ordinal(m: Mode): nat {
    match m
    case Unknown => 0
    case Install => 1
    case Remove => 2
    case Upgrade => 3
    case DistUpgrade => 4
    case Files => 5
    case List => 6
    case ListInstalled => 7
    case FlagHold => 8
    case FlagNoprune => 9
    case FlagUser => 10
    case FlagOk => 11
    case FlagInstalled => 12
    case FlagUnpacked => 13
    case Status => 14
    case StatusInstalled => 15
  }

  /** `mode >= MODE_FLAG_HOLD && mode <= MODE_FLAG_UNPACKED`. */
  predicate IsFlagMode(m: Mode) {
    Ordinal(FlagHold) <= Ordinal(m) <= Ordinal(FlagUnpacked)
  }

  /** The flag modes that store a status rather than a flag word. */
  predicate SetsStatus(m: Mode) {
    m == FlagInstalled || m == FlagUnpacked
  }

  /** The `mode_flag_map` of opkg_solv_mode_from_flag_str(), in its order. */
  const ModeFlagMap: seq<Entry<Mode>> := [
    Entry(FlagHold, "hold"),
    Entry(FlagNoprune, "noprune"),
    Entry(FlagUser, "user"),
    Entry(FlagInstalled, "installed"),
    Entry(FlagOk, "ok"),
    Entry(FlagUnpacked, "unpacked")
  ]

  /** opkg_solv_mode_from_flag_str(): the flag mode named by a word, MODE_UNKNOWN for any other word. */
  function ModeFromFlagStr(w: string): Mode {
    ValueOf(ModeFlagMap, w, Unknown)
  }

  /** Each word of the table names its own mode. */
  lemma ModeWord(k: nat)
    requires k < |ModeFlagMap|
    ensures ModeFromFlagStr(ModeFlagMap[k].word) == ModeFlagMap[k].value
  {
    ModeFlagMapDistinct();
    ScansFindEntry(ModeFlagMap, k, "", Unknown);
  }

  /** The table holds exactly the six words of the `flag` command. */
  lemma ModeFlagWords()
    ensures forall k :: 0 <= k < |ModeFlagMap| ==>
      ModeFlagMap[k].word in {"hold", "noprune", "user", "ok", "installed", "unpacked"}
  {
  }

  /** Any other word names no mode. */
  lemma OtherWordRefused(w: string)
    requires w !in {"hold", "noprune", "user", "ok", "installed", "unpacked"}
    ensures ModeFromFlagStr(w) == Unknown
  {
    ModeFlagWords();
    var k := IndexOfWord(ModeFlagMap, w);
    if k < |ModeFlagMap| {
      assert false;
    }
  }

  /** The `mode_map` of pkg_state_from_mode(): each flag mode with the SF_* or SS_* value it stores. */
  const ModeStateMap: seq<(Mode, int)> := [
    (FlagHold, SF_HOLD as int),
    (FlagNoprune, SF_NOPRUNE as int),
    (FlagUser, SF_USER as int),
    (FlagOk, SF_OK as int),
    (FlagInstalled, SS_INSTALLED),
    (FlagUnpacked, SS_UNPACKED)
  ]

  /** Position of the first entry for `mode`, or |m|. */
  function StateIndex(m: seq<(Mode, int)>, mode: Mode): (k: nat)
    ensures k <= |m|
    ensures k < |m| ==> m[k].0 == mode
    ensures forall l :: 0 <= l < k ==> m[l].0 != mode
  {
    if |m| == 0 then 0
    else if m[0].0 == mode then 0
    else 1 + StateIndex(m[1..], mode)
  }

  /** pkg_state_from_mode(): the value a flag mode stores, -1 for every other mode. */
  function PkgStateFromMode(mode: Mode): int {
    var k := StateIndex(ModeStateMap, mode);
    if k < |ModeStateMap| then ModeStateMap[k].1 else -1
  }

  lemma ModeFlagMapDistinct()
    ensures Distinct(ModeFlagMap)
  {
  }

  /** No mode occurs twice in the table, and every mode in it is a flag mode. */
  lemma ModeStateMapShape()
    ensures forall a, b :: 0 <= a < b < |ModeStateMap| ==> ModeStateMap[a].0 != ModeStateMap[b].0
    ensures forall k :: 0 <= k < |ModeStateMap| ==> IsFlagMode(ModeStateMap[k].0)
    ensures forall k :: 0 <= k < |ModeFlagMap| ==> IsFlagMode(ModeFlagMap[k].value)
  {
  }

  lemma StateIndexFinds(k: nat)
    requires k < |ModeStateMap|
    ensures StateIndex(ModeStateMap, ModeStateMap[k].0) == k
  {
    ModeStateMapShape();
    var r := StateIndex(ModeStateMap, ModeStateMap[k].0);
    assert r <= k;
  }

  /** The flag word each flag mode stores, read off the table. */
  lemma ModeStates()
    ensures PkgStateFromMode(FlagHold) == SF_HOLD as int
    ensures PkgStateFromMode(FlagNoprune) == SF_NOPRUNE as int
    ensures PkgStateFromMode(FlagUser) == SF_USER as int
    ensures PkgStateFromMode(FlagOk) == SF_OK as int
    ensures PkgStateFromMode(FlagInstalled) == SS_INSTALLED
    ensures PkgStateFromMode(FlagUnpacked) == SS_UNPACKED
  {
    StateIndexFinds(0);
    StateIndexFinds(1);
    StateIndexFinds(2);
    StateIndexFinds(3);
    StateIndexFinds(4);
    StateIndexFinds(5);
  }

  /** The flag modes are exactly the modes a word of the `flag` command names, and the modes with a state. */
  lemma FlagModes(m: Mode)
    ensures IsFlagMode(m) <==> exists k :: 0 <= k < |ModeFlagMap| && ModeFlagMap[k].value == m
    ensures IsFlagMode(m) <==> PkgStateFromMode(m) != -1
  {
    ModeStateMapShape();
    ModeStates();
    if IsFlagMode(m) {
      var k := match m
        case FlagHold => 0 case FlagNoprune => 1 case FlagUser => 2
        case FlagInstalled => 3 case FlagOk => 4 case _ => 5;
      assert ModeFlagMap[k].value == m;
    }
  }

  lemma FlagWordOk()
    ensures FlagFromString("ok") == SF_OK
  {
  }

  lemma FlagWordHold()
    ensures FlagFromString("hold") == SF_HOLD
  {
    var t, s := FlagMap, "hold";
    assert s[0] == 'h';
    FlagInitials();
    InitialSkip(t, s, 0);
    InitialSkip(t, s, 1);
    ParseStop(t, s, 2);
  }

  lemma FlagWordNoprune()
    ensures FlagFromString("noprune") == SF_NOPRUNE
  {
    var t, s := FlagMap, "noprune";
    assert s[0] == 'n';
    FlagInitials();
    InitialSkip(t, s, 0);
    InitialSkip(t, s, 1);
    InitialSkip(t, s, 2);
    InitialSkip(t, s, 3);
    ParseStop(t, s, 4);
  }

  lemma FlagWordUser()
    ensures FlagFromString("user") == SF_USER
  {
    var t, s := FlagMap, "user";
    assert s[0] == 'u';
    FlagInitials();
    InitialSkip(t, s, 0);
    InitialSkip(t, s, 1);
    InitialSkip(t, s, 2);
    InitialSkip(t, s, 3);
    InitialSkip(t, s, 4);
    InitialSkip(t, s, 5);
    InitialSkip(t, s, 6);
    ParseStop(t, s, 7);
  }

  lemma StatusWordFound(k: nat)
    requires k < |StatusMap|
    ensures StatusFromStr(StatusMap[k].word) == StatusMap[k].value
  {
    StatusMapDistinct();
    ScansFindEntry(StatusMap, k, "", SS_NOT_INSTALLED);
  }

  /**
   * A word of the `flag` command stores what the status file would read for that
   * word: a flag word as pkg_state_flag_from_str() reads it, "installed" and
   * "unpacked" as pkg_state_status_from_str() reads them; any other word is refused.
   */
  lemma FlagWordsAgree(w: string)
    ensures w in {"hold", "noprune", "user", "ok"} ==>
      !SetsStatus(ModeFromFlagStr(w)) && PkgStateFromMode(ModeFromFlagStr(w)) == FlagFromString(w) as int
    ensures w in {"installed", "unpacked"} ==>
      SetsStatus(ModeFromFlagStr(w)) && PkgStateFromMode(ModeFromFlagStr(w)) == StatusFromStr(w)
    ensures w !in {"hold", "noprune", "user", "ok", "installed", "unpacked"} ==>
      ModeFromFlagStr(w) == Unknown && PkgStateFromMode(ModeFromFlagStr(w)) == -1
  {
    if w in {"hold", "noprune", "user", "ok"} {
      FlagWordAgrees(w);
    } else if w in {"installed", "unpacked"} {
      StatusWordAgrees(w);
    } else {
      OtherWordRefused(w);
      FlagModes(Unknown);
    }
  }

  lemma HoldAgrees()
    ensures ModeFromFlagStr("hold") == ModeFlagMap[0].value && PkgStateFromMode(ModeFlagMap[0].value) == FlagFromString("hold") as int
  {
    StateIndexFinds(0);
    ModeWord(0);
    FlagWordHold();
  }

  lemma NopruneAgrees()
    ensures ModeFromFlagStr("noprune") == ModeFlagMap[1].value && PkgStateFromMode(ModeFlagMap[1].value) == FlagFromString("noprune") as int
  {
    StateIndexFinds(1);
    ModeWord(1);
    FlagWordNoprune();
  }

  lemma UserAgrees()
    ensures ModeFromFlagStr("user") == ModeFlagMap[2].value && PkgStateFromMode(ModeFlagMap[2].value) == FlagFromString("user") as int
  {
    StateIndexFinds(2);
    ModeWord(2);
    FlagWordUser();
  }

  lemma OkAgrees()
    ensures ModeFromFlagStr("ok") == ModeFlagMap[4].value && PkgStateFromMode(ModeFlagMap[4].value) == FlagFromString("ok") as int
  {
    StateIndexFinds(3);
    ModeWord(4);
    FlagWordOk();
  }

  lemma FlagWordAgrees(w: string)
    requires w in {"hold", "noprune", "user", "ok"}
    ensures !SetsStatus(ModeFromFlagStr(w)) && PkgStateFromMode(ModeFromFlagStr(w)) == FlagFromString(w) as int
  {
    if w == "hold" {
      HoldAgrees();
    } else if w == "noprune" {
      NopruneAgrees();
    } else if w == "user" {
      UserAgrees();
    } else {
      OkAgrees();
    }
  }

  lemma StatusWordAgrees(w: string)
    requires w in {"installed", "unpacked"}
    ensures SetsStatus(ModeFromFlagStr(w)) && PkgStateFromMode(ModeFromFlagStr(w)) == StatusFromStr(w)
  {
    if w == "installed" {
      InstalledAgrees();
    } else {
      UnpackedAgrees();
    }
  }

  lemma InstalledAgrees()
    ensures ModeFromFlagStr("installed") == FlagInstalled && PkgStateFromMode(FlagInstalled) == StatusFromStr("installed")
  {
    StateIndexFinds(4);
    StatusWordFound(3);
    ModeWord(3);
  }

  lemma UnpackedAgrees()
    ensures ModeFromFlagStr("unpacked") == FlagUnpacked && PkgStateFromMode(FlagUnpacked) == StatusFromStr("unpacked")
  {
    StateIndexFinds(5);
    StatusWordFound(1);
    ModeWord(5);
  }

  // ---------------------------------------------------------------------------
  // The architecture list

  /** An `arch_t`. */
  datatype Arch = Arch(name: string, priority: int)

  predicate Sorted(s: seq<Arch>) {
    forall i, j :: 0 <= i < j < |s| ==> s[i].priority <= s[j].priority
  }

  /** Where opkg_solv_add_arch() puts priority `p`: before the first strictly greater priority, else at the end. */
  function InsertPos(s: seq<Arch>, p: int): (k: nat)
    ensures k <= |s|
    ensures forall l :: 0 <= l < k ==> s[l].priority <= p
    ensures k < |s| ==> p < s[k].priority
  {
    if |s| == 0 then 0
    else if p < s[0].priority then 0
    else 1 + InsertPos(s[1..], p)
  }

  /** The list after adding `a`. */
  function Inserted(s: seq<Arch>, a: Arch): seq<Arch> {
    var k := InsertPos(s, a.priority);
    s[..k] + [a] + s[k..]
  }

  lemma {:induction false} InsertPosAt(s: seq<Arch>, p: int, i: nat)
    requires i <= |s| && forall l :: 0 <= l < i ==> s[l].priority <= p
    requires i < |s| ==> p < s[i].priority
    ensures InsertPos(s, p) == i
  {
    if i > 0 {
      InsertPosAt(s[1..], p, i - 1);
    }
  }

  /**
   * Adding an entry grows the list by one and puts the entry at its place: taking it
   * out again gives the old list in its old order.
   */
  lemma InsertedShape(s: seq<Arch>, a: Arch)
    ensures |Inserted(s, a)| == |s| + 1
    ensures Inserted(s, a)[InsertPos(s, a.priority)] == a
    ensures var k := InsertPos(s, a.priority); Inserted(s, a)[..k] + Inserted(s, a)[k + 1..] == s
  {
    var k, r := InsertPos(s, a.priority), Inserted(s, a);
    assert r[..k] == s[..k] && r[k + 1..] == s[k..];
    assert s == s[..k] + s[k..];
  }

  /** Adding an entry adds exactly that entry. */
  lemma InsertedPermutes(s: seq<Arch>, a: Arch)
    ensures multiset(Inserted(s, a)) == multiset(s) + multiset{a}
  {
    var k := InsertPos(s, a.priority);
    assert s == s[..k] + s[k..];
  }

  /** Every entry of a priority not above the new one's (equal priorities included) stays in front of it. */
  lemma InsertedAfterEqual(s: seq<Arch>, a: Arch)
    requires Sorted(s)
    ensures forall l :: 0 <= l < |s| && s[l].priority <= a.priority ==> l < InsertPos(s, a.priority)
  {
  }

  /** Adding an entry keeps the list sorted by priority. */
  lemma InsertedSorted(s: seq<Arch>, a: Arch)
    requires Sorted(s)
    ensures Sorted(Inserted(s, a))
  {
    var k, r := InsertPos(s, a.priority), Inserted(s, a);
    forall i, j | 0 <= i < j < |r| ensures r[i].priority <= r[j].priority {
      if j < k {
        assert r[i] == s[i] && r[j] == s[j];
      } else if j == k {
        assert r[i] == s[i];
      } else if i == k {
        assert r[j] == s[j - 1];
      } else if i < k {
        assert r[i] == s[i] && r[j] == s[j - 1];
      } else {
        assert r[i] == s[i - 1] && r[j] == s[j - 1];
      }
    }
  }

  /** The names, in list order. */
  function Names(s: seq<Arch>): (r: seq<string>)
    ensures |r| == |s| && forall k :: 0 <= k < |s| ==> r[k] == s[k].name
  {
    seq(|s|, k requires 0 <= k < |s| => s[k].name)
  }

  /** The policy string opkg_solv_prepare_arch() hands to libsolv: the names joined by '>', NULL for none. */
  function ArchPolicy(s: seq<Arch>): Option<string> {
    if s == [] then None else Some(Join(Names(s), ">"))
  }

  /** The policy string lists every architecture once, in list order, when no name holds a '>'. */
  lemma ArchPolicyNames(s: seq<Arch>)
    requires forall k, l :: 0 <= k < |s| && 0 <= l < |s[k].name| ==> s[k].name[l] != '>'
    ensures ArchPolicy(s).None? <==> s == []
    ensures ArchPolicy(s).Some? ==> Split(ArchPolicy(s).value, '>') == Names(s)
  {
    if s != [] {
      assert ">" == ['>'];
      SplitJoin(Names(s), '>');
    }
  }

  /** memmove(&a[i + 1], &a[i], (n - i) * sizeof(arch_t)). */
  method ShiftRight(a: array<Arch>, i: nat, n: nat)
    requires i <= n < a.Length
    modifies a
    ensures a[..i] == old(a[..i]) && a[i + 1..n + 1] == old(a[i..n]) && a[n + 1..] == old(a[n + 1..])
  {
    var j := n;
    while j > i
      invariant i <= j <= n
      invariant a[..j] == old(a[..j])
      invariant a[j + 1..n + 1] == old(a[j..n])
      invariant a[n + 1..] == old(a[n + 1..])
    {
      a[j] := a[j - 1];
      j := j - 1;
    }
  }

  /** xrealloc() to one more entry: a fresh array holding the first `n` entries of `v`. */
  method Grow(v: array<Arch>, n: nat) returns (nv: array<Arch>)
    requires n <= v.Length
    ensures fresh(nv) && nv.Length == n + 1 && nv[..n] == v[..n]
  {
    nv := new Arch[n + 1];
    var j := 0;
    while j < n
      invariant 0 <= j <= n
      invariant nv[..j] == v[..j]
    {
      nv[j] := v[j];
      j := j + 1;
    }
  }

  /** The memmove() followed by the store of the new entry at `i`. */
  method InsertAt(a: array<Arch>, i: nat, n: nat, x: Arch)
    requires i <= n < a.Length
    modifies a
    ensures a[..n + 1] == old(a[..i]) + [x] + old(a[i..n])
  {
    ShiftRight(a, i, n);
    ghost var t := a[..];
    a[i] := x;
    assert a[..i] == t[..i];
    assert a[i + 1..n + 1] == t[i + 1..n + 1];
    SpliceIs(a[..n + 1], old(a[..n]), x, i);
  }

  lemma SpliceIs<T>(t: seq<T>, s: seq<T>, x: T, i: nat)
    requires i <= |s| && |t| == |s| + 1
    requires t[..i] == s[..i] && t[i] == x && t[i + 1..] == s[i..]
    ensures t == s[..i] + [x] + s[i..]
  {
    assert t == t[..i] + [t[i]] + t[i + 1..];
  }

  /** The global `opkg_solv_arch_vec` with its size `opkg_solv_arch_vec_size`. */
  class ArchVec {
    var vec: array<Arch>
    var size: nat

    ghost predicate Valid()
      reads this
    {
      size == vec.Length
    }

    function Contents(): seq<Arch>
      reads this, vec
      requires Valid()
    {
      vec[..size]
    }

    /** opkg_solv_init(): no architecture yet. */
    constructor ()
      ensures Valid() && Contents() == []
    {
      vec := new Arch[0];
      size := 0;
    }

    /**
     * opkg_solv_add_arch(): grows the vector by one and inserts the new entry before
     * the first entry of strictly greater priority, shifting the rest up.
     */
    method AddArch(arch: string, priority: int)
      requires Valid()
      modifies this
      ensures Valid() && fresh(vec)
      ensures Contents() == Inserted(old(Contents()), Arch(arch, priority))
    {
      ghost var s := Contents();
      var a := Arch(arch, priority);
      var n, v := size, vec;
      var nv := Grow(v, n);
      var i := 0;
      while i < n
        invariant 0 <= i <= n
        invariant nv[..n] == s
        invariant forall l :: 0 <= l < i ==> s[l].priority <= priority
      {
        if priority < nv[i].priority {
          InsertAt(nv, i, n, a);
          break;
        }
        i := i + 1;
      }
      if i == n {
        nv[i] := a;
        assert nv[..n + 1] == s[..i] + [a] + s[i..];
      }
      InsertPosAt(s, priority, i);
      vec := nv;
      size := n + 1;
    }

    /** opkg_solv_prepare_arch(): the names in vector order, each after the first preceded by '>'. */
    method PrepareArch() returns (policy: Option<string>)
      requires Valid()
      ensures policy == ArchPolicy(Contents())
    {
      policy := None;
      var i := 0;
      while i < size
        invariant 0 <= i <= size
        invariant policy == ArchPolicy(vec[..i])
      {
        assert Names(vec[..i + 1]) == Names(vec[..i]) + [vec[i].name];
        if i > 0 {
          JoinSnoc(Names(vec[..i]), vec[i].name, ">");
          policy := Some(policy.value + ">" + vec[i].name);
        } else {
          policy := Some(vec[i].name);
        }
        i := i + 1;
      }
      assert vec[..i] == vec[..size];
    }
  }

  /** Adding entry after entry: every list built by opkg_solv_add_arch() is sorted. */
  method AddArchKeepsSorted(v: ArchVec, arch: string, priority: int)
    requires v.Valid() && Sorted(v.Contents())
    modifies v
    ensures v.Valid() && Sorted(v.Contents()) && |v.Contents()| == |old(v.Contents())| + 1
  {
    ghost var s := v.Contents();
    v.AddArch(arch, priority);
    InsertedSorted(s, Arch(arch, priority));
  }

  // ---------------------------------------------------------------------------
  // What opkg_solv_process() does with a mode

  const SOLVER_SOLVABLE_ALL: bv32 := 0x06
  const SOLVER_SELECTMASK: bv32 := 0xff
  const SOLVER_INSTALL: bv32 := 0x100
  const SOLVER_ERASE: bv32 := 0x200
  const SOLVER_UPDATE: bv32 := 0x300
  const SOLVER_DISTUPGRADE: bv32 := 0x700
  const SOLVER_JOBMASK: bv32 := 0xff00
  const SOLVER_CLEANDEPS: bv32 := 0x40000
  const SOLVER_FORCEBEST: bv32 := 0x100000

  /** Where a mode leads: a listing, the flag overwrite, a solver run with its job type, or the error return. */
  datatype Route = ListPackages | ListStatus | ListFiles | SetFlags | Solve(opmode: bv32) | UnknownMode

  /** The chain of tests in opkg_solv_process(), in its order. */
  function ProcessRoute(mode: Mode): Route {
    if mode == List || mode == ListInstalled then ListPackages
    else if mode == Status || mode == StatusInstalled then ListStatus
    else if mode == Files then ListFiles
    else if IsFlagMode(mode) then SetFlags
    else if mode == Install then Solve(SOLVER_INSTALL)
    else if mode == Remove then Solve(SOLVER_ERASE)
    else if mode == Upgrade then Solve(SOLVER_UPDATE)
    else if mode == DistUpgrade then Solve(SOLVER_DISTUPGRADE)
    else UnknownMode
  }

  /** What opkg_solv_process() returns when it stops before the solver: -1 for an unknown mode, else 0. */
  function EarlyResult(r: Route): Option<int> {
    match r
    case Solve(_) => None
    case UnknownMode => Some(-1)
    case _ => Some(0)
  }

  /** The four solving modes, and only they, reach the solver. */
  lemma SolvingModes(mode: Mode)
    ensures ProcessRoute(mode).Solve? <==> mode in {Install, Remove, Upgrade, DistUpgrade}
  {
  }

  /** Each solving mode hands the solver its own job type. */
  lemma SolveJobsDistinct(mode: Mode, mode': Mode)
    requires ProcessRoute(mode).Solve? && ProcessRoute(mode').Solve? && mode != mode'
    ensures ProcessRoute(mode).opmode != ProcessRoute(mode').opmode
  {
  }

  /** The flag modes, exactly the modes with a state to store, stop at the overwrite. */
  lemma FlagModesSetFlags(mode: Mode)
    ensures ProcessRoute(mode) == SetFlags <==> PkgStateFromMode(mode) != -1
  {
    FlagModes(mode);
  }

  /** Only MODE_UNKNOWN fails. */
  lemma OnlyUnknownFails(mode: Mode)
    ensures EarlyResult(ProcessRoute(mode)) == Some(-1) <==> mode == Unknown
  {
  }

  /**
   * One job word after the decoration loop of opkg_solv_process(): the job type is
   * ORed in; when the test `opmode & SOLVER_UPDATE` passes and libsolv reports an
   * empty update job (`emptyUpdate`, pool_isemptyupdatejob()), SOLVER_UPDATE is
   * swapped for SOLVER_INSTALL; then SOLVER_CLEANDEPS for autoremove and
   * SOLVER_FORCEBEST unless reinstalling is forced.
   */
  function Decorated(how: bv32, opmode: bv32, emptyUpdate: bool, autoremove: bool, forceReinstall: bool): bv32 {
    var h := Typed(how, opmode, emptyUpdate);
    var h := if autoremove then h | SOLVER_CLEANDEPS else h;
    if !forceReinstall then h | SOLVER_FORCEBEST else h
  }

  /** The first two steps: the job type ORed in, an empty update turned into an install. */
  function Typed(how: bv32, opmode: bv32, emptyUpdate: bool): bv32 {
    var h := how | opmode;
    if opmode & SOLVER_UPDATE != 0 && emptyUpdate then h ^ (SOLVER_UPDATE ^ SOLVER_INSTALL) else h
  }

  /**
   * For a job word that only selects packages: the selection is kept, the job gets
   * the mode's job type (an update with nothing installed becomes an install when
   * libsolv says so; the bit test also lets the other three job types through, and
   * an empty-update answer for one of them flips its 0x200 bit), SOLVER_CLEANDEPS exactly when autoremoving and
   * SOLVER_FORCEBEST exactly when reinstalling is not forced.
   */
  lemma DecoratedJob(how: bv32, opmode: bv32, emptyUpdate: bool, autoremove: bool, forceReinstall: bool)
    requires how & (SOLVER_JOBMASK | SOLVER_CLEANDEPS | SOLVER_FORCEBEST) == 0
    requires opmode in {SOLVER_INSTALL, SOLVER_ERASE, SOLVER_UPDATE, SOLVER_DISTUPGRADE}
    ensures Decorated(how, opmode, emptyUpdate, autoremove, forceReinstall) & SOLVER_SELECTMASK == how & SOLVER_SELECTMASK
    ensures (Decorated(how, opmode, emptyUpdate, autoremove, forceReinstall) & SOLVER_CLEANDEPS != 0) <==> autoremove
    ensures (Decorated(how, opmode, emptyUpdate, autoremove, forceReinstall) & SOLVER_FORCEBEST != 0) <==> !forceReinstall
    ensures !emptyUpdate ==> Decorated(how, opmode, emptyUpdate, autoremove, forceReinstall) & SOLVER_JOBMASK == opmode
    ensures opmode == SOLVER_UPDATE && emptyUpdate ==>
      Decorated(how, opmode, emptyUpdate, autoremove, forceReinstall) & SOLVER_JOBMASK == SOLVER_INSTALL
    ensures opmode != SOLVER_UPDATE && emptyUpdate ==>
      Decorated(how, opmode, emptyUpdate, autoremove, forceReinstall) & SOLVER_JOBMASK == opmode ^ (SOLVER_UPDATE ^ SOLVER_INSTALL)
  {
  }

  /** The decoration loop over the job queue: every even slot is a job word, every odd slot what it selects. */
  method DecorateJobs(job: array<bv32>, opmode: bv32, emptyUpdate: seq<bool>, autoremove: bool, forceReinstall: bool)
    requires job.Length % 2 == 0 && |emptyUpdate| == job.Length / 2
    modifies job
    ensures forall k :: 0 <= k < job.Length ==>
      job[k] == if k % 2 == 0 then Decorated(old(job[k]), opmode, emptyUpdate[k / 2], autoremove, forceReinstall)
                else old(job[k])
  {
    var count := job.Length;
    var i := 0;
    while i < count
      invariant 0 <= i <= count && i % 2 == 0
      invariant forall k :: 0 <= k < i ==>
        job[k] == if k % 2 == 0 then Decorated(old(job[k]), opmode, emptyUpdate[k / 2], autoremove, forceReinstall)
                  else old(job[k])
      invariant forall k :: i <= k < count ==> job[k] == old(job[k])
    {
      job[i] := Decorated(job[i], opmode, emptyUpdate[i / 2], autoremove, forceReinstall);
      i := i + 2;
    }
  }

  // ---------------------------------------------------------------------------
  // The `flag` command's overwrite

  /** A value of pkg_state_from_mode() stored into the `state_flag` word (-1 becomes all bits). */
  function FlagWord(v: int): Flags {
    (v % 0x1_0000_0000) as bv32
  }

  /** The package of a selected id that lives in the installed repository, if any: the ones the overwrite changes. */
  function Target(o: Option<Package>): set<Package> {
    if o.Some? && o.value.inInstalledRepo then {o.value} else {}
  }

  function TargetDest(o: Option<Package>): set<Dest> {
    if o.Some? && o.value.inInstalledRepo then {o.value.dest} else {}
  }

  /** The packages of a selection that live in the installed repository. */
  ghost function Targets(sel: seq<Option<Package>>): set<Package> {
    set k | 0 <= k < |sel| && sel[k].Some? && sel[k].value.inInstalledRepo :: sel[k].value
  }

  /** The destinations of the packages in Targets. */
  ghost function TargetDests(sel: seq<Option<Package>>): set<Dest> {
    set k | 0 <= k < |sel| && sel[k].Some? && sel[k].value.inInstalledRepo :: sel[k].value.dest
  }

  /** Every package a selection names is one of `pkgs`, and every destination of those one of `dests`. */
  ghost predicate Within(sel: seq<Option<Package>>, pkgs: set<Package>, dests: set<Dest>) {
    && (forall k :: 0 <= k < |sel| && sel[k].Some? ==> sel[k].value in pkgs)
    && (forall p :: p in pkgs ==> p.dest in dests)
  }

  lemma TargetsWithin(sel: seq<Option<Package>>, pkgs: set<Package>, dests: set<Dest>)
    requires Within(sel, pkgs, dests)
    ensures Targets(sel) <= pkgs && TargetDests(sel) <= dests
  {
    forall d | d in TargetDests(sel) ensures d in dests {
      var k :| 0 <= k < |sel| && sel[k].Some? && sel[k].value.inInstalledRepo && sel[k].value.dest == d;
      assert sel[k].value in pkgs;
    }
  }

  lemma TargetsSnoc(sel: seq<Option<Package>>, i: nat)
    requires i < |sel|
    ensures Targets(sel[..i + 1]) == Targets(sel[..i]) + Target(sel[i])
    ensures TargetDests(sel[..i + 1]) == TargetDests(sel[..i]) + TargetDest(sel[i])
  {
    var s, t := sel[..i + 1], sel[..i];
    forall p | p in Targets(s) ensures p in Targets(t) + Target(sel[i]) {
      var k :| 0 <= k <= i && s[k].Some? && s[k].value.inInstalledRepo && s[k].value == p;
      if k < i {
        assert t[k] == s[k];
      }
    }
    forall p | p in Targets(t) ensures p in Targets(s) {
      var k :| 0 <= k < i && t[k].Some? && t[k].value.inInstalledRepo && t[k].value == p;
      assert s[k] == t[k];
    }
    if Target(sel[i]) != {} {
      assert s[i] == sel[i];
    }
    forall d | d in TargetDests(s) ensures d in TargetDests(t) + TargetDest(sel[i]) {
      var k :| 0 <= k <= i && s[k].Some? && s[k].value.inInstalledRepo && s[k].value.dest == d;
      if k < i {
        assert t[k] == s[k];
      }
    }
    forall d | d in TargetDests(t) ensures d in TargetDests(s) {
      var k :| 0 <= k < i && t[k].Some? && t[k].value.inInstalledRepo && t[k].value.dest == d;
      assert s[k] == t[k];
    }
  }

  /** The state a targeted package has after the overwrite with `state`, in terms of its old state. */
  ghost predicate Overwritten(mode: Mode, state: int, word: Flags, ss: int, sf: Flags, oldSs: int, oldSf: Flags) {
    if SetsStatus(mode) then ss == state && sf == oldSf
    else sf == word && ss == oldSs
  }

  /** The overwrite of one installed package. */
  method Overwrite(pkg: Package, mode: Mode, state: int, word: Flags)
    modifies pkg`stateStatus, pkg`stateFlag, pkg.dest`changed
    ensures Overwritten(mode, state, word, pkg.stateStatus, pkg.stateFlag, old(pkg.stateStatus), old(pkg.stateFlag))
    ensures pkg.dest.changed
  {
    if SetsStatus(mode) {
      pkg.stateStatus := state;
    } else {
      pkg.stateFlag := word;
    }
    pkg.dest.changed := true;
  }

  /** The flag word and status of each package, as a value. */
  ghost function PkgSnap(pkgs: set<Package>): map<Package, (int, Flags)>
    reads pkgs
  {
    map p | p in pkgs :: (p.stateStatus, p.stateFlag)
  }

  ghost function DestSnap(dests: set<Dest>): map<Dest, bool>
    reads dests
  {
    map d | d in dests :: d.changed
  }

  /** The state of `p` measured against the state `before` it started from: overwritten when `hit`, else as it was. */
  ghost predicate Reached(p: Package, hit: bool, mode: Mode, state: int, word: Flags, before: (int, Flags))
    reads p
  {
    if hit then Overwritten(mode, state, word, p.stateStatus, p.stateFlag, before.0, before.1)
    else p.stateStatus == before.0 && p.stateFlag == before.1
  }

  /**
   * The overwrite has reached the packages `done` and the destinations `marked`:
   * measured against the states `ps` and `ds` it started from, those packages are
   * overwritten, those destinations changed, and everything else as it was.
   */
  ghost predicate Progress(pkgs: set<Package>, dests: set<Dest>, done: set<Package>, marked: set<Dest>,
                           mode: Mode, state: int, word: Flags, ps: map<Package, (int, Flags)>, ds: map<Dest, bool>)
    reads pkgs, dests
  {
    && (forall p :: p in pkgs ==> p in ps && Reached(p, p in done, mode, state, word, ps[p]))
    && (forall d :: d in dests ==> d in ds && d.changed == (ds[d] || d in marked))
  }

  /** One iteration of the loop of set_installed_packages_flag(), for the package of one selected id. */
  method Visit(o: Option<Package>, mode: Mode, state: int, word: Flags, pkgs: set<Package>, dests: set<Dest>,
               ghost done: set<Package>, ghost marked: set<Dest>, ghost ps: map<Package, (int, Flags)>, ghost ds: map<Dest, bool>)
    requires o.Some? ==> o.value in pkgs && o.value.dest in dests
    requires Progress(pkgs, dests, done, marked, mode, state, word, ps, ds)
    modifies pkgs`stateStatus, pkgs`stateFlag, dests`changed
    ensures Progress(pkgs, dests, done + Target(o), marked + TargetDest(o), mode, state, word, ps, ds)
  {
    if o.Some? && o.value.inInstalledRepo {
      var pkg := o.value;
      Overwrite(pkg, mode, state, word);
      forall p | p in pkgs && p != pkg
        ensures p.stateStatus == old(p.stateStatus) && p.stateFlag == old(p.stateFlag)
      {
      }
      forall d | d in dests && d != pkg.dest
        ensures d.changed == old(d.changed)
      {
      }
    }
  }

  /** Nothing is reached yet: every package and destination is in the state it was snapshotted in. */
  lemma ProgressStart(pkgs: set<Package>, dests: set<Dest>, mode: Mode, state: int, word: Flags)
    ensures Progress(pkgs, dests, {}, {}, mode, state, word, PkgSnap(pkgs), DestSnap(dests))
  {
  }

  /** Once the loop has visited every selected id, the packages reached are the selection's targets. */
  lemma ProgressFinished(sel: seq<Option<Package>>, pkgs: set<Package>, dests: set<Dest>, mode: Mode, state: int, word: Flags,
                         ps: map<Package, (int, Flags)>, ds: map<Dest, bool>)
    requires Within(sel, pkgs, dests)
    requires Progress(pkgs, dests, Targets(sel), TargetDests(sel), mode, state, word, ps, ds)
    ensures forall p :: p in pkgs ==> p in ps && Reached(p, p in Targets(sel), mode, state, word, ps[p])
    ensures forall d :: d in dests ==> d in ds && d.changed == (ds[d] || d in TargetDests(sel))
    ensures Targets(sel) <= pkgs
  {
    TargetsWithin(sel, pkgs, dests);
  }

  /** The loop of set_installed_packages_flag(): every selected id is visited in turn. */
  method OverwriteAll(sel: seq<Option<Package>>, mode: Mode, state: int, word: Flags, pkgs: set<Package>, dests: set<Dest>,
                      ghost ps: map<Package, (int, Flags)>, ghost ds: map<Dest, bool>)
    requires Within(sel, pkgs, dests)
    requires Progress(pkgs, dests, {}, {}, mode, state, word, ps, ds)
    modifies pkgs`stateStatus, pkgs`stateFlag, dests`changed
    ensures Progress(pkgs, dests, Targets(sel), TargetDests(sel), mode, state, word, ps, ds)
  {
    ghost var done: set<Package>, marked: set<Dest> := {}, {};
    var i := 0;
    while i < |sel|
      invariant 0 <= i <= |sel|
      invariant done == Targets(sel[..i]) && marked == TargetDests(sel[..i])
      invariant Progress(pkgs, dests, done, marked, mode, state, word, ps, ds)
    {
      Visit(sel[i], mode, state, word, pkgs, dests, done, marked, ps, ds);
      TargetsSnoc(sel, i);
      done, marked := done + Target(sel[i]), marked + TargetDest(sel[i]);
      i := i + 1;
    }
    assert sel[..i] == sel;
  }

  /**
   * set_installed_packages_flag(): for every selected package of the installed
   * repository, "installed" and "unpacked" overwrite the status and every other mode
   * overwrites the whole flag word; each such package's destination is marked
   * changed.  A selected id without a package (None) is skipped, and a package
   * outside the installed repository keeps its state.
   */
  method SetInstalledPackagesFlag(sel: seq<Option<Package>>, mode: Mode, pkgs: set<Package>, dests: set<Dest>)
    requires Within(sel, pkgs, dests)
    modifies pkgs`stateStatus, pkgs`stateFlag, dests`changed
    ensures forall p :: p in pkgs ==>
      Reached(p, p in Targets(sel), mode, PkgStateFromMode(mode), FlagWord(PkgStateFromMode(mode)), (old(p.stateStatus), old(p.stateFlag)))
    ensures forall d :: d in dests ==> d.changed == (old(d.changed) || d in TargetDests(sel))
    ensures Targets(sel) <= pkgs
  {
    var state := PkgStateFromMode(mode);
    var word := FlagWord(state);
    ghost var ps, ds := PkgSnap(pkgs), DestSnap(dests);
    ProgressStart(pkgs, dests, mode, state, word);
    OverwriteAll(sel, mode, state, word, pkgs, dests, ps, ds);
    ProgressFinished(sel, pkgs, dests, mode, state, word, ps, ds);
  }

  // ---------------------------------------------------------------------------
  // The status file

  /**
   * The `is_not_wanted` test of write_status_files(): a package that is not installed
   * and whose want is unknown or purge, or deinstall without a hold, is left out.
   */
  predicate NotWanted(ss: int, sw: int, sf: Flags) {
    ss == SS_NOT_INSTALLED
    && (sw == SW_UNKNOWN || (sw == SW_DEINSTALL && sf & SF_HOLD == 0) || sw == SW_PURGE)
  }

  /**
   * What survives into the status file: every package in any state but
   * not-installed, every package the user wants installed, and a held package
   * marked for deinstall; a not-installed package with want unknown or purge, or
   * with want deinstall and no hold, never.
   */
  lemma StatusFileKeeps(ss: int, sw: int, sf: Flags)
    ensures ss != SS_NOT_INSTALLED ==> !NotWanted(ss, sw, sf)
    ensures sw == SW_INSTALL ==> !NotWanted(ss, sw, sf)
    ensures sw == SW_DEINSTALL && sf & SF_HOLD != 0 ==> !NotWanted(ss, sw, sf)
    ensures ss == SS_NOT_INSTALLED && (sw == SW_UNKNOWN || sw == SW_PURGE) ==> NotWanted(ss, sw, sf)
    ensures ss == SS_NOT_INSTALLED && sw == SW_DEINSTALL && sf & SF_HOLD == 0 ==> NotWanted(ss, sw, sf)
  {
  }

  // ---------------------------------------------------------------------------
  // Configuring unpacked packages

  /** The flag word after a successful configure: SF_PREFER cleared, SF_CHANGED set, every other bit kept. */
  function ConfiguredFlags(sf: Flags): (r: Flags)
    ensures r & SF_PREFER == 0 && r & SF_CHANGED == SF_CHANGED
    ensures r & !(SF_PREFER | SF_CHANGED) == sf & !(SF_PREFER | SF_CHANGED)
  {
    (sf & !SF_PREFER) | SF_CHANGED
  }

  /**
   * The step both configuring loops take for an unpacked package, given what
   * opkg_configure() returned (`configured`): on success the package becomes
   * installed with the flags of ConfiguredFlags; a failure counts (`failed`) unless
   * an offline root is set.  A package not unpacked is left alone.
   */
  method ConfigureIfUnpacked(pkg: Package, configured: int, offlineRoot: bool) returns (failed: bool)
    modifies pkg`stateStatus, pkg`stateFlag
    ensures old(pkg.stateStatus) == SS_UNPACKED && configured == 0 ==>
      pkg.stateStatus == SS_INSTALLED && pkg.stateFlag == ConfiguredFlags(old(pkg.stateFlag))
    ensures !(old(pkg.stateStatus) == SS_UNPACKED && configured == 0) ==>
      pkg.stateStatus == old(pkg.stateStatus) && pkg.stateFlag == old(pkg.stateFlag)
    ensures failed <==> old(pkg.stateStatus) == SS_UNPACKED && configured != 0 && !offlineRoot
    ensures pkg.stateWant == old(pkg.stateWant) && pkg.installedFiles == old(pkg.installedFiles)
  {
    failed := false;
    if pkg.stateStatus == SS_UNPACKED {
      if configured == 0 {
        pkg.stateStatus := SS_INSTALLED;
        pkg.stateFlag := pkg.stateFlag & !SF_PREFER;
        pkg.stateFlag := pkg.stateFlag | SF_CHANGED;
      } else if !offlineRoot {
        failed := true;
      }
    }
  }

  /** The packages configure_old_pkgs() configures: wanted installed and left unpacked. */
  predicate Pending(sw: int, ss: int) {
    sw == SW_INSTALL && ss == SS_UNPACKED
  }

  /** Some pending package among the first `n` failed to configure. */
  ghost predicate Failed(installed: seq<Package>, configured: seq<int>, n: nat)
    reads set p | p in installed
    requires n <= |installed| == |configured|
  {
    exists k :: 0 <= k < n && Pending(installed[k].stateWant, installed[k].stateStatus) && configured[k] != 0
  }

  /**
   * configure_old_pkgs() over the packages of the installed repository, each with
   * what opkg_configure() returns for it.  Nothing happens in offline-root mode
   * without force_postinstall or without an installed repository; a failure to set
   * up the intercepts returns -1 before any package is touched; a failure to
   * finalise them (`finalized` != 0) makes the result -1.
   */
  method ConfigureOldPkgs(installed: seq<Package>, configured: seq<int>, offlineRoot: bool,
                          forcePostinstall: bool, hasInstalledRepo: bool, interceptsReady: bool,
                          finalized: int) returns (err: int)
    requires |configured| == |installed|
    requires forall i, j :: 0 <= i < j < |installed| ==> installed[i] != installed[j]
    modifies (set p | p in installed)`stateStatus, (set p | p in installed)`stateFlag
    ensures forall k :: 0 <= k < |installed| ==> installed[k].stateWant == old(installed[k].stateWant)
    ensures (offlineRoot && !forcePostinstall) || !hasInstalledRepo || !interceptsReady ==>
      forall k :: 0 <= k < |installed| ==>
        installed[k].stateStatus == old(installed[k].stateStatus) && installed[k].stateFlag == old(installed[k].stateFlag)
    ensures (offlineRoot && !forcePostinstall) || !hasInstalledRepo ==> err == 0
    ensures !((offlineRoot && !forcePostinstall) || !hasInstalledRepo) && !interceptsReady ==> err == -1
    ensures !((offlineRoot && !forcePostinstall) || !hasInstalledRepo) && interceptsReady ==>
      (forall k :: 0 <= k < |installed| ==>
        if Pending(old(installed[k].stateWant), old(installed[k].stateStatus)) && configured[k] == 0 then
          installed[k].stateStatus == SS_INSTALLED && installed[k].stateFlag == ConfiguredFlags(old(installed[k].stateFlag))
        else
          installed[k].stateStatus == old(installed[k].stateStatus) && installed[k].stateFlag == old(installed[k].stateFlag)) &&
      (err == -1 <==> finalized != 0 || (!offlineRoot && old(Failed(installed, configured, |installed|)))) &&
      (err == 0 || err == -1)
  {
    if (offlineRoot && !forcePostinstall) || !hasInstalledRepo {
      return 0;
    }
    if !interceptsReady {
      return -1;
    }
    err := 0;
    var i := 0;
    while i < |installed|
      invariant 0 <= i <= |installed|
      invariant forall k :: 0 <= k < |installed| ==> installed[k].stateWant == old(installed[k].stateWant)
      invariant forall k :: 0 <= k < i ==>
        if Pending(old(installed[k].stateWant), old(installed[k].stateStatus)) && configured[k] == 0 then
          installed[k].stateStatus == SS_INSTALLED && installed[k].stateFlag == ConfiguredFlags(old(installed[k].stateFlag))
        else
          installed[k].stateStatus == old(installed[k].stateStatus) && installed[k].stateFlag == old(installed[k].stateFlag)
      invariant forall k :: i <= k < |installed| ==>
        installed[k].stateStatus == old(installed[k].stateStatus) && installed[k].stateFlag == old(installed[k].stateFlag)
      invariant err == -1 <==> !offlineRoot && old(Failed(installed, configured, i))
      invariant err == 0 || err == -1
    {
      var pkg := installed[i];
      if pkg.stateWant == SW_INSTALL && pkg.stateStatus == SS_UNPACKED {
        var failed := ConfigureIfUnpacked(pkg, configured[i], offlineRoot);
        if failed {
          err := -1;
        }
      }
      i := i + 1;
    }
    if finalized != 0 {
      err := -1;
    }
  }
}
