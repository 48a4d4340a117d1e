/**
 * The three package states of libopkg/pkg.c and their status-file words: what the
 * user wants done with a package (`state_want`), a set of flag bits (`state_flag`)
 * and how far installation got (`state_status`).  Each has a table of
 * (value, word) entries; want and status are looked up in both directions, the
 * flags are written as the comma-separated names of the set bits and read back by a
 * single walk over the flag table.  The "Status:" field joins the three words with
 * spaces, and its reader takes them apart with `sscanf("%63s %63s %63s")`.
 *
 * pkg.h, which fixes the numeric values, is not part of this model: the values below
 * are those of upstream opkg, with distinct single bits for the flags.
 */
module PkgState {
  import opened Wrappers
  import opened CStrings

  type Flags = bv32

  const SW_UNKNOWN: int := 1
  const SW_INSTALL: int := 2
  const SW_DEINSTALL: int := 3
  const SW_PURGE: int := 4

  const SF_OK: Flags := 0
  const SF_REINSTREQ: Flags := 1
  const SF_HOLD: Flags := 2
  const SF_REPLACE: Flags := 4
  const SF_NOPRUNE: Flags := 8
  const SF_PREFER: Flags := 16
  const SF_OBSOLETE: Flags := 32
  const SF_MARKED: Flags := 64
  const SF_FILELIST_CHANGED: Flags := 128
  const SF_USER: Flags := 256
  const SF_NEED_DETAIL: Flags := 512
  const SF_CHANGED: Flags := 1024

  /** The flags that survive into the status file; the others are temporary. */
  const SF_NONVOLATILE_FLAGS: Flags := SF_HOLD | SF_NOPRUNE | SF_PREFER | SF_OBSOLETE | SF_USER

  const SS_NOT_INSTALLED: int := 1
  const SS_UNPACKED: int := 2
  const SS_HALF_CONFIGURED: int := 3
  const SS_INSTALLED: int := 4
  const SS_HALF_INSTALLED: int := 5
  const SS_CONFIG_FILES: int := 6
  const SS_POST_INST_FAILED: int := 7
  const SS_REMOVAL_FAILED: int := 8

  /** One row of an `enum_map_t` table. */
  datatype Entry<V> = Entry(value: V, word: string)

  const WantMap: seq<Entry<int>> := [
    Entry(SW_UNKNOWN, "unknown"),
    Entry(SW_INSTALL, "install"),
    Entry(SW_DEINSTALL, "deinstall"),
    Entry(SW_PURGE, "purge")
  ]

  const FlagMap: seq<Entry<Flags>> := [
    Entry(SF_OK, "ok"),
    Entry(SF_REINSTREQ, "reinstreq"),
    Entry(SF_HOLD, "hold"),
    Entry(SF_REPLACE, "replace"),
    Entry(SF_NOPRUNE, "noprune"),
    Entry(SF_PREFER, "prefer"),
    Entry(SF_OBSOLETE, "obsolete"),
    Entry(SF_USER, "user")
  ]

  const StatusMap: seq<Entry<int>> := [
    Entry(SS_NOT_INSTALLED, "not-installed"),
    Entry(SS_UNPACKED, "unpacked"),
    Entry(SS_HALF_CONFIGURED, "half-configured"),
    Entry(SS_INSTALLED, "installed"),
    Entry(SS_HALF_INSTALLED, "half-installed"),
    Entry(SS_CONFIG_FILES, "config-files"),
    Entry(SS_POST_INST_FAILED, "post-inst-failed"),
    Entry(SS_REMOVAL_FAILED, "removal-failed")
  ]

  // ---------------------------------------------------------------------------
  // Table scans

  /** No value and no word occurs twice in the table. */
  predicate Distinct<V(==)>(m: seq<Entry<V>>) {
    forall a, b :: 0 <= a < b < |m| ==> m[a].value != m[b].value && m[a].word != m[b].word
  }

  /** Position of the first entry carrying `v`, or |m| when there is none. */
  function IndexOfValue<V(==)>(m: seq<Entry<V>>, v: V): (k: nat)
    ensures k <= |m|
    ensures k < |m| ==> m[k].value == v
    ensures forall l :: 0 <= l < k ==> m[l].value != v
  {
    if |m| == 0 then 0
    else if m[0].value == v then 0
    else 1 + IndexOfValue(m[1..], v)
  }

  /** Position of the first entry whose word equals `w` (strcmp() == 0), or |m|. */
  function IndexOfWord<V>(m: seq<Entry<V>>, w: string): (k: nat)
    ensures k <= |m|
    ensures k < |m| ==> m[k].word == w
    ensures forall l :: 0 <= l < k ==> m[l].word != w
  {
    if |m| == 0 then 0
    else if m[0].word == w then 0
    else 1 + IndexOfWord(m[1..], w)
  }

  /** The `*_to_str` scan: the word of the first entry with value `v`, else `fallback`. */
  function WordOf<V(==)>(m: seq<Entry<V>>, v: V, fallback: string): string {
    var k := IndexOfValue(m, v);
    if k < |m| then m[k].word else fallback
  }

  /** The `*_from_str` scan: the value of the first entry with word `w`, else `fallback`. */
  function ValueOf<V>(m: seq<Entry<V>>, w: string, fallback: V): V {
    var k := IndexOfWord(m, w);
    if k < |m| then m[k].value else fallback
  }

  /** In a table without repetitions both scans find the entry itself. */
  lemma ScansFindEntry<V>(m: seq<Entry<V>>, k: nat, fw: string, fv: V)
    requires Distinct(m) && k < |m|
    ensures WordOf(m, m[k].value, fw) == m[k].word
    ensures ValueOf(m, m[k].word, fv) == m[k].value
  {
    var a := IndexOfValue(m, m[k].value);
    var b := IndexOfWord(m, m[k].word);
    assert a <= k && b <= k;
  }

  lemma WantMapDistinct()
    ensures Distinct(WantMap)
  {
  }

  lemma StatusMapDistinct()
    ensures Distinct(StatusMap)
  {
  }

  // ---------------------------------------------------------------------------
  // Want and status

  /** pkg_state_want_to_str(). */
  function WantToStr(sw: int): string {
    WordOf(WantMap, sw, "<STATE_WANT_UNKNOWN>")
  }

  /** pkg_state_want_from_str(). */
  function WantFromStr(w: string): int {
    ValueOf(WantMap, w, SW_UNKNOWN)
  }

  /** pkg_state_status_to_str(). */
  function StatusToStr(ss: int): string {
    WordOf(StatusMap, ss, "<STATE_STATUS_UNKNOWN>")
  }

  /** pkg_state_status_from_str(). */
  function StatusFromStr(w: string): int {
    ValueOf(StatusMap, w, SS_NOT_INSTALLED)
  }

  /** The want codecs are inverse on the table: value -> word -> value and word -> value -> word. */
  lemma WantRoundTrip(k: nat)
    requires k < |WantMap|
    ensures WantFromStr(WantToStr(WantMap[k].value)) == WantMap[k].value
    ensures WantToStr(WantFromStr(WantMap[k].word)) == WantMap[k].word
  {
    WantMapDistinct();
    ScansFindEntry(WantMap, k, "<STATE_WANT_UNKNOWN>", SW_UNKNOWN);
  }

  /** The status codecs are inverse on the table. */
  lemma StatusRoundTrip(k: nat)
    requires k < |StatusMap|
    ensures StatusFromStr(StatusToStr(StatusMap[k].value)) == StatusMap[k].value
    ensures StatusToStr(StatusFromStr(StatusMap[k].word)) == StatusMap[k].word
  {
    StatusMapDistinct();
    ScansFindEntry(StatusMap, k, "<STATE_STATUS_UNKNOWN>", SS_NOT_INSTALLED);
  }

  /** Words not in the tables fall back to SW_UNKNOWN / SS_NOT_INSTALLED; unknown values to the marker words. */
  lemma Fallbacks(w: string, v: int)
    ensures (forall k :: 0 <= k < |WantMap| ==> WantMap[k].word != w) ==> WantFromStr(w) == SW_UNKNOWN
    ensures (forall k :: 0 <= k < |StatusMap| ==> StatusMap[k].word != w) ==> StatusFromStr(w) == SS_NOT_INSTALLED
    ensures !(SW_UNKNOWN <= v <= SW_PURGE) ==> WantToStr(v) == "<STATE_WANT_UNKNOWN>"
    ensures !(SS_NOT_INSTALLED <= v <= SS_REMOVAL_FAILED) ==> StatusToStr(v) == "<STATE_STATUS_UNKNOWN>"
  {
    var a := IndexOfValue(WantMap, v);
    if a < |WantMap| { assert WantMap[a].value == v; }
    var b := IndexOfValue(StatusMap, v);
    if b < |StatusMap| { assert StatusMap[b].value == v; }
  }

  // ---------------------------------------------------------------------------
  // Flags written as words
  //
  // The walks over the flag table are stated for any table `t`: the flag table is
  // one instance, and the three facts about it that the proofs need (single-bit
  // values, prefix-free names, names that are plain words) are proved once, in
  // FlagMapShape, so that no proof has to look inside the table itself.

  /** `sf & map[i].value`: the flag of table entry `i` is set in `m`. */
  predicate Has(t: seq<Entry<Flags>>, m: Flags, i: nat)
    requires i < |t|
  {
    m & t[i].value != 0
  }

  /** The names of the entries from `i` on whose flag is set in `m`, in table order. */
  function NamesFrom(t: seq<Entry<Flags>>, m: Flags, i: nat): seq<string>
    requires i <= |t|
    decreases |t| - i
  {
    if i == |t| then []
    else if Has(t, m, i) then [t[i].word] + NamesFrom(t, m, i + 1)
    else NamesFrom(t, m, i + 1)
  }

  /** The union of the values of the entries from `i` on. */
  function ValuesFrom(t: seq<Entry<Flags>>, i: nat): Flags
    requires i <= |t|
    decreases |t| - i
  {
    if i == |t| then 0 else t[i].value | ValuesFrom(t, i + 1)
  }

  /** Every word followed by a comma: the buffer before its last comma is squashed. */
  function Terminated(ws: seq<string>): string {
    if |ws| == 0 then "" else ws[0] + "," + Terminated(ws[1..])
  }

  /**
   * What pkg_state_flag_to_str() returns: "ok" when no non-volatile flag is set,
   * otherwise the names of the set non-volatile flags, in table order, joined by commas.
   */
  function FlagString(sf: Flags): string {
    var m := sf & SF_NONVOLATILE_FLAGS;
    if m == 0 then "ok" else Join(NamesFrom(FlagMap, m, 0), ",")
  }

  /** strncat(dst, src, n): appends at most n characters of src. */
  function StrNCat(dst: string, src: string, n: nat): (r: string)
    ensures |src| <= n ==> r == dst + src
  {
    dst + (if |src| <= n then src else src[..n])
  }

  lemma {:induction false} TerminatedJoin(ws: seq<string>)
    requires ws != []
    ensures |Terminated(ws)| > 0
    ensures Terminated(ws)[..|Terminated(ws)| - 1] == Join(ws, ",")
  {
    if |ws| > 1 {
      TerminatedJoin(ws[1..]);
      var t := Terminated(ws[1..]);
      assert Terminated(ws) == ws[0] + "," + t;
      assert t[..|t| - 1] == Join(ws[1..], ",");
      assert Terminated(ws)[..|Terminated(ws)| - 1] == ws[0] + "," + t[..|t| - 1];
    }
  }

  // Facts of bit algebra, each kept apart so that the solver meets it on its own.

  lemma OneBit(x: Flags, v: Flags)
    ensures v & (v - 1) == 0 && x & v != 0 ==> x & v == v
  {
  }

  lemma AndSkip(m: Flags, v: Flags, r: Flags)
    ensures m & v == 0 ==> m & (v | r) == m & r
  {
  }

  lemma OrStep(m: Flags, v: Flags, r: Flags)
    ensures m & v == v ==> m & (v | r) == v | (m & r)
  {
  }

  lemma OrLast(m: Flags, v: Flags, r: Flags)
    ensures m & v == v && m & r == 0 ==> m & (v | r) == v
  {
  }

  lemma OrZero(m: Flags)
    ensures 0 | m == m && m | 0 == m
  {
  }

  lemma OrAssoc(a: Flags, b: Flags, c: Flags)
    ensures (a | b) | c == a | (b | c)
  {
  }

  lemma AndBoth(m: Flags, v: Flags, r: Flags)
    ensures m & v == 0 && m & r == 0 ==> m & (v | r) == 0
  {
  }

  /** No name is a prefix of another name. */
  predicate PrefixFree<V>(t: seq<Entry<V>>) {
    forall i, k :: 0 <= i < |t| && 0 <= k < |t| && i != k ==> !(t[i].word <= t[k].word)
  }

  /** Every name is a word `%63s` reads whole. */
  predicate Words<V>(t: seq<Entry<V>>) {
    forall i :: 0 <= i < |t| ==> Word(t[i].word)
  }

  /**
   * The shape of the flag table the codec relies on: every value is a single bit
   * except the first, SF_OK, which is no bit; names are prefix-free words; and every
   * name after the first is longer than the word "ok".
   */
  ghost predicate FlagShape(t: seq<Entry<Flags>>) {
    && (forall i, x: Flags {:trigger Has(t, x, i)} :: 0 <= i < |t| && Has(t, x, i) ==> x & t[i].value == t[i].value)
    && PrefixFree(t) && Words(t)
    && |t| > 0 && t[0].value == 0
    && (forall i :: 0 < i < |t| ==> |t[i].word| > 2)
  }

  lemma FlagWordsPrefixFree(i: nat, k: nat)
    requires i < |FlagMap| && k < |FlagMap| && i != k
    ensures !(FlagMap[i].word <= FlagMap[k].word)
  {
    var a, b := FlagMap[i].word, FlagMap[k].word;
    if (i == 0 && k == 6) || (i == 6 && k == 0) {
      assert a[1] != b[1];
    } else if (i == 1 && k == 3) || (i == 3 && k == 1) {
      assert a[2] != b[2];
    } else {
      assert i == 0 || i == 1 || i == 2 || i == 3 || i == 4 || i == 5 || i == 6 || i == 7;
      assert k == 0 || k == 1 || k == 2 || k == 3 || k == 4 || k == 5 || k == 6 || k == 7;
      assert a[0] != b[0];
    }
  }

  lemma FlagBits(i: nat)
    requires i < |FlagMap|
    ensures FlagMap[i].value & (FlagMap[i].value - 1) == 0
  {
    assert i == 0 || i == 1 || i == 2 || i == 3 || i == 4 || i == 5 || i == 6 || i == 7;
  }

  lemma FlagWords()
    ensures Words(FlagMap)
    ensures forall i :: 0 < i < |FlagMap| ==> |FlagMap[i].word| > 2
  {
  }

  lemma FlagMapShape()
    ensures FlagShape(FlagMap)
  {
    forall i, x: Flags | 0 <= i < |FlagMap| && Has(FlagMap, x, i)
      ensures x & FlagMap[i].value == FlagMap[i].value
    {
      FlagBits(i);
      OneBit(x, FlagMap[i].value);
    }
    forall i, k | 0 <= i < |FlagMap| && 0 <= k < |FlagMap| && i != k
      ensures !(FlagMap[i].word <= FlagMap[k].word)
    {
      FlagWordsPrefixFree(i, k);
    }
    FlagWords();
  }

  /** A flag of a single-bit entry is either wholly set or wholly clear. */
  lemma HasAll(t: seq<Entry<Flags>>, x: Flags, i: nat)
    requires FlagShape(t) && i < |t|
    ensures Has(t, x, i) ==> x & t[i].value == t[i].value
    ensures !Has(t, x, i) ==> x & t[i].value == 0
  {
  }

  /** A value with a bit of the table set names at least one entry. */
  lemma {:induction false} NamesNonEmpty(t: seq<Entry<Flags>>, m: Flags, i: nat)
    requires FlagShape(t) && i <= |t|
    requires m & ValuesFrom(t, i) != 0
    ensures NamesFrom(t, m, i) != []
    decreases |t| - i
  {
    if i < |t| && !Has(t, m, i) {
      HasAll(t, m, i);
      AndSkip(m, t[i].value, ValuesFrom(t, i + 1));
      NamesNonEmpty(t, m, i + 1);
    }
  }

  /** No non-volatile flag is missing from the flag table. */
  lemma NonVolatileInTable()
    ensures SF_NONVOLATILE_FLAGS & ValuesFrom(FlagMap, 0) == SF_NONVOLATILE_FLAGS
  {
    var t := FlagMap;
    assert ValuesFrom(t, 8) == 0;
    assert ValuesFrom(t, 7) == 0x100;
    assert ValuesFrom(t, 6) == 0x120;
    assert ValuesFrom(t, 5) == 0x130;
    assert ValuesFrom(t, 4) == 0x138;
    assert ValuesFrom(t, 3) == 0x13C;
    assert ValuesFrom(t, 2) == 0x13E;
    assert ValuesFrom(t, 1) == 0x13F;
    assert ValuesFrom(t, 0) == 0x13F;
  }

  /**
   * The two passes of pkg_state_flag_to_str() over a table: the first sizes the
   * buffer, the second appends "name," for every set flag; the final comma is then
   * squashed.
   */
  method WriteNames(t: seq<Entry<Flags>>, m: Flags) returns (s: string)
    requires NamesFrom(t, m, 0) != []
    ensures s == Join(NamesFrom(t, m, 0), ",")
  {
    ghost var all := Terminated(NamesFrom(t, m, 0));
    var len: nat := 0;
    var i := 0;
    while i < |t|
      invariant 0 <= i <= |t|
      invariant len + |Terminated(NamesFrom(t, m, i))| == |all|
    {
      if Has(t, m, i) {
        len := len + |t[i].word| + 1;
      }
      i := i + 1;
    }
    s := "";
    i := 0;
    while i < |t|
      invariant 0 <= i <= |t|
      invariant s + Terminated(NamesFrom(t, m, i)) == all
    {
      if Has(t, m, i) {
        var name := t[i].word;
        assert all == (s + name) + ("," + Terminated(NamesFrom(t, m, i + 1)));
        s := StrNCat(s, name, len);
        s := StrNCat(s, ",", len);
      }
      i := i + 1;
    }
    TerminatedJoin(NamesFrom(t, m, 0));
    s := s[..|s| - 1];
  }

  /** pkg_state_flag_to_str(): masks off the temporary flags and returns "ok" for none. */
  method FlagToStr(sf: Flags) returns (s: string)
    ensures s == FlagString(sf)
  {
    var m := sf & SF_NONVOLATILE_FLAGS;
    if m == 0 {
      return "ok";
    }
    FlagMapShape();
    NonVolatileInTable();
    NamesNonEmpty(FlagMap, m, 0);
    s := WriteNames(FlagMap, m);
  }

  // ---------------------------------------------------------------------------
  // Flags read back from words

  /**
   * The flags the walk of pkg_state_flag_from_str() collects from table entry `i`
   * on with `s` still to read: an entry whose name starts `s` contributes its value
   * and consumes the name; the walk goes on past a following comma and stops at
   * anything else.
   */
  function ParseFrom(t: seq<Entry<Flags>>, s: string, i: nat): Flags
    requires i <= |t|
    decreases |t| - i
  {
    if i == |t| then 0
    else
      var w := t[i].word;
      if w <= s then
        var rest := s[|w|..];
        if |rest| > 0 && rest[0] == ',' then t[i].value | ParseFrom(t, rest[1..], i + 1)
        else t[i].value
      else ParseFrom(t, s, i + 1)
  }

  /** What pkg_state_flag_from_str() returns. */
  function FlagFromString(s: string): Flags {
    if s == "ok" then SF_OK else ParseFrom(FlagMap, s, 0)
  }

  /**
   * The walk of pkg_state_flag_from_str() over a table: an entry whose name starts
   * the rest of the string adds its flag and consumes the name; a comma after it
   * lets the walk go on, anything else ends it.
   */
  method ReadNames(t: seq<Entry<Flags>>, str: string) returns (sf: Flags)
    ensures sf == ParseFrom(t, str, 0)
  {
    ghost var total := ParseFrom(t, str, 0);
    sf := SF_OK;
    var s := str;
    var i := 0;
    OrZero(total);
    while i < |t|
      invariant 0 <= i <= |t|
      invariant sf | ParseFrom(t, s, i) == total
    {
      var more;
      sf, s, more := ReadEntry(t, s, i, sf, total);
      if !more {
        return;
      }
      i := i + 1;
    }
    OrZero(sf);
  }

  /**
   * One iteration of the walk: if the name of entry `i` starts `s`, its flag is added
   * and the name consumed; the walk goes on only past a comma.
   */
  method ReadEntry(t: seq<Entry<Flags>>, s: string, i: nat, sf: Flags, ghost total: Flags)
      returns (sf': Flags, s': string, more: bool)
    requires i < |t| && sf | ParseFrom(t, s, i) == total
    ensures more ==> sf' | ParseFrom(t, s', i + 1) == total
    ensures !more ==> sf' == total
  {
    var name := t[i].word;
    if name <= s {
      var rest := s[|name|..];
      if |rest| > 0 && rest[0] == ',' {
        TakeStep(t, s, i, sf, total);
        return sf | t[i].value, rest[1..], true;
      } else {
        EndStep(t, s, i, sf, total);
        return sf | t[i].value, rest, false;
      }
    }
    ParseSkip(t, s, i);
    return sf, s, true;
  }

  /** One step of the walk that consumes a name and its comma keeps the collected flags on track. */
  lemma TakeStep(t: seq<Entry<Flags>>, s: string, i: nat, sf: Flags, total: Flags)
    requires i < |t| && t[i].word <= s && |s| > |t[i].word| && s[|t[i].word|] == ','
    requires sf | ParseFrom(t, s, i) == total
    ensures (sf | t[i].value) | ParseFrom(t, s[|t[i].word|..][1..], i + 1) == total
  {
    assert s[|t[i].word|..][1..] == s[|t[i].word| + 1..];
    ParseTake(t, s, i);
    OrAssoc(sf, t[i].value, ParseFrom(t, s[|t[i].word| + 1..], i + 1));
  }

  /** The step that consumes a name not followed by a comma ends the walk with the collected flags. */
  lemma EndStep(t: seq<Entry<Flags>>, s: string, i: nat, sf: Flags, total: Flags)
    requires i < |t| && t[i].word <= s
    requires !(|s[|t[i].word|..]| > 0 && s[|t[i].word|..][0] == ',')
    requires sf | ParseFrom(t, s, i) == total
    ensures sf | t[i].value == total
  {
    ParseEnd(t, s, i);
  }

  /** pkg_state_flag_from_str(): "ok" is SF_OK; otherwise one walk over the flag table. */
  method FlagFromStr(str: string) returns (sf: Flags)
    ensures sf == FlagFromString(str)
  {
    if str == "ok" {
      return SF_OK;
    }
    sf := ReadNames(FlagMap, str);
  }

  /** No name `i` starts a list made of the names of later entries. */
  lemma {:induction false} NoEarlierName(t: seq<Entry<Flags>>, m: Flags, i: nat, k: nat)
    requires FlagShape(t) && i < k <= |t|
    ensures !(t[i].word <= Join(NamesFrom(t, m, k), ","))
    decreases |t| - k
  {
    if k < |t| {
      if Has(t, m, k) {
        HeadNameBlocks(t, m, i, k);
      } else {
        NoEarlierName(t, m, i, k + 1);
      }
    } else {
      assert Word(t[i].word);
    }
  }

  /** A list that starts with name `k` is not started by another name `i`. */
  lemma HeadNameBlocks(t: seq<Entry<Flags>>, m: Flags, i: nat, k: nat)
    requires FlagShape(t) && i < k < |t| && Has(t, m, k)
    ensures !(t[i].word <= Join(NamesFrom(t, m, k), ","))
  {
    var w := t[i].word;
    var rest := NamesFrom(t, m, k + 1);
    var u := if rest == [] then "" else "," + Join(rest, ",");
    assert Join(NamesFrom(t, m, k), ",") == t[k].word + u;
    assert !(w <= t[k].word) && !(t[k].word <= w);
    PrefixOfConcat(w, t[k].word, u);
  }

  /** A prefix of `a + u` is a prefix of `a` or has `a` as a prefix. */
  lemma PrefixOfConcat(w: string, a: string, u: string)
    ensures w <= a + u ==> w <= a || a <= w
  {
    if w <= a + u {
      if |w| <= |a| {
        assert w == a[..|w|];
      } else {
        assert a == w[..|a|];
      }
    }
  }

  lemma {:induction false} EmptyMask(t: seq<Entry<Flags>>, m: Flags, i: nat)
    requires FlagShape(t) && i <= |t|
    requires NamesFrom(t, m, i) == []
    ensures m & ValuesFrom(t, i) == 0
    decreases |t| - i
  {
    if i < |t| {
      EmptyMask(t, m, i + 1);
      HasAll(t, m, i);
      AndBoth(m, t[i].value, ValuesFrom(t, i + 1));
    }
  }

  lemma ParseSkip(t: seq<Entry<Flags>>, s: string, i: nat)
    requires i < |t| && !(t[i].word <= s)
    ensures ParseFrom(t, s, i) == ParseFrom(t, s, i + 1)
  {
  }

  lemma ParseTake(t: seq<Entry<Flags>>, s: string, i: nat)
    requires i < |t| && t[i].word <= s && |s| > |t[i].word| && s[|t[i].word|] == ','
    ensures ParseFrom(t, s, i) == t[i].value | ParseFrom(t, s[|t[i].word| + 1..], i + 1)
  {
    assert s[|t[i].word|..][1..] == s[|t[i].word| + 1..];
  }

  lemma ParseEnd(t: seq<Entry<Flags>>, s: string, i: nat)
    requires i < |t| && t[i].word <= s
    requires !(|s| > |t[i].word| && s[|t[i].word|] == ',')
    ensures ParseFrom(t, s, i) == t[i].value
  {
  }

  lemma ParseStop(t: seq<Entry<Flags>>, s: string, i: nat)
    requires i < |t| && t[i].word == s
    ensures ParseFrom(t, s, i) == t[i].value
  {
  }

  /** Reading the names of the set flags from entry `i` on gives back exactly those flags. */
  ghost predicate NamesParse(t: seq<Entry<Flags>>, m: Flags, i: nat)
    requires i <= |t|
  {
    ParseFrom(t, Join(NamesFrom(t, m, i), ","), i) == m & ValuesFrom(t, i)
  }

  lemma ValuesStep(t: seq<Entry<Flags>>, i: nat)
    requires i < |t|
    ensures ValuesFrom(t, i) == t[i].value | ValuesFrom(t, i + 1)
  {
  }

  lemma MaskLast(t: seq<Entry<Flags>>, m: Flags, i: nat)
    requires FlagShape(t) && i < |t| && Has(t, m, i) && NamesFrom(t, m, i + 1) == []
    ensures m & ValuesFrom(t, i) == t[i].value
  {
    HasAll(t, m, i);
    EmptyMask(t, m, i + 1);
    ValuesStep(t, i);
    OrLast(m, t[i].value, ValuesFrom(t, i + 1));
  }

  lemma ParseLast(t: seq<Entry<Flags>>, m: Flags, i: nat)
    requires FlagShape(t) && i < |t| && Has(t, m, i) && NamesFrom(t, m, i + 1) == []
    ensures NamesParse(t, m, i)
  {
    var w := t[i].word;
    assert NamesFrom(t, m, i) == [w];
    assert Join([w], ",") == w;
    ParseStop(t, w, i);
    MaskLast(t, m, i);
  }

  lemma ParseNext(t: seq<Entry<Flags>>, m: Flags, i: nat)
    requires FlagShape(t) && i < |t| && Has(t, m, i) && NamesFrom(t, m, i + 1) != []
    requires NamesParse(t, m, i + 1)
    ensures NamesParse(t, m, i)
  {
    var w, v, r := t[i].word, t[i].value, ValuesFrom(t, i + 1);
    var rest := NamesFrom(t, m, i + 1);
    var s := Join(NamesFrom(t, m, i), ",");
    var u := Join(rest, ",");
    assert NamesFrom(t, m, i) == [w] + rest;
    assert ([w] + rest)[1..] == rest;
    assert s == w + "," + u;
    assert s[|w| + 1..] == u;
    ParseTake(t, s, i);
    HasAll(t, m, i);
    OrStep(m, v, r);
  }

  lemma ParseUnset(t: seq<Entry<Flags>>, m: Flags, i: nat)
    requires FlagShape(t) && i < |t| && !Has(t, m, i)
    requires NamesParse(t, m, i + 1)
    ensures NamesParse(t, m, i)
  {
    var v, r := t[i].value, ValuesFrom(t, i + 1);
    var s := Join(NamesFrom(t, m, i + 1), ",");
    assert NamesFrom(t, m, i) == NamesFrom(t, m, i + 1);
    NoEarlierName(t, m, i, i + 1);
    ParseSkip(t, s, i);
    HasAll(t, m, i);
    AndSkip(m, v, r);
  }

  lemma ParseNames(t: seq<Entry<Flags>>, m: Flags, i: nat)
    requires FlagShape(t) && i <= |t|
    ensures ParseFrom(t, Join(NamesFrom(t, m, i), ","), i) == m & ValuesFrom(t, i)
  {
    var j := |t|;
    assert NamesFrom(t, m, j) == [];
    while j > i
      invariant i <= j <= |t|
      invariant NamesParse(t, m, j)
    {
      if !Has(t, m, j - 1) {
        ParseUnset(t, m, j - 1);
      } else if NamesFrom(t, m, j) == [] {
        ParseLast(t, m, j - 1);
      } else {
        ParseNext(t, m, j - 1);
      }
      j := j - 1;
    }
  }

  /** A non-empty list of names is longer than "ok": SF_OK never names itself. */
  lemma {:induction false} NamesNotOk(t: seq<Entry<Flags>>, m: Flags, i: nat)
    requires FlagShape(t) && i <= |t|
    requires NamesFrom(t, m, i) != []
    ensures |Join(NamesFrom(t, m, i), ",")| > 2
    decreases |t| - i
  {
    if Has(t, m, i) {
      assert i != 0;
      var rest := NamesFrom(t, m, i + 1);
      if rest != [] {
        assert Join(NamesFrom(t, m, i), ",") == t[i].word + "," + Join(rest, ",");
      }
    } else {
      NamesNotOk(t, m, i + 1);
    }
  }

  /** Reading what the writer wrote gives back the non-volatile flags. */
  lemma FlagRoundTrip(sf: Flags)
    ensures FlagFromString(FlagString(sf)) == sf & SF_NONVOLATILE_FLAGS
  {
    var m := sf & SF_NONVOLATILE_FLAGS;
    if m != 0 {
      FlagMapShape();
      NonVolatileInTable();
      NamesNonEmpty(FlagMap, m, 0);
      NamesNotOk(FlagMap, m, 0);
      ParseNames(FlagMap, m, 0);
    }
  }

  /** The reader accepts names only in table order: a later name stops an earlier one being read. */
  lemma FlagOrderMatters()
    ensures FlagFromString("hold,noprune") == SF_HOLD | SF_NOPRUNE
    ensures FlagFromString("noprune,hold") == SF_NOPRUNE
  {
    var h, n := "hold", "noprune";
    assert h + "," + n == "hold,noprune" && n + "," + h == "noprune,hold";
    HoldThenNoprune(h, n);
    NopruneFirst(n, h);
    HoldAfterNoprune();
    OrZero(SF_NOPRUNE);
  }

  lemma HoldThenNoprune(h: string, n: string)
    requires h == "hold" && n == "noprune"
    ensures ParseFrom(FlagMap, h + "," + n, 0) == SF_HOLD | SF_NOPRUNE
  {
    HoldTaken(h, n);
    NopruneAlone(n);
  }

  lemma HoldTaken(h: string, n: string)
    requires h == "hold" && n == "noprune"
    ensures ParseFrom(FlagMap, h + "," + n, 0) == SF_HOLD | ParseFrom(FlagMap, n, 3)
  {
    var t, a := FlagMap, h + "," + n;
    assert a[0] == 'h';
    FlagInitials();
    InitialSkip(t, a, 0);
    InitialSkip(t, a, 1);
    ParseTake(t, a, 2);
    assert a[|h| + 1..] == n;
  }

  lemma NopruneAlone(n: string)
    requires n == "noprune"
    ensures ParseFrom(FlagMap, n, 3) == SF_NOPRUNE
  {
    assert n[0] == 'n';
    FlagInitials();
    InitialSkip(FlagMap, n, 3);
    ParseStop(FlagMap, n, 4);
  }

  lemma NopruneFirst(n: string, h: string)
    requires h == "hold" && n == "noprune"
    ensures ParseFrom(FlagMap, n + "," + h, 0) == SF_NOPRUNE | ParseFrom(FlagMap, h, 5)
  {
    var t, a := FlagMap, n + "," + h;
    NopruneSkips(a);
    ParseTake(t, a, 4);
    assert a[|n| + 1..] == h;
  }

  lemma NopruneSkips(a: string)
    requires |a| > 0 && a[0] == 'n'
    ensures ParseFrom(FlagMap, a, 0) == ParseFrom(FlagMap, a, 4)
  {
    var t := FlagMap;
    FlagInitials();
    InitialSkip(t, a, 0);
    InitialSkip(t, a, 1);
    InitialSkip(t, a, 2);
    InitialSkip(t, a, 3);
  }

  /** The first letters of the flag names. */
  lemma FlagInitials()
    ensures FlagMap[0].word[0] == 'o' && FlagMap[1].word[0] == 'r' && FlagMap[2].word[0] == 'h'
    ensures FlagMap[3].word[0] == 'r' && FlagMap[4].word[0] == 'n' && FlagMap[5].word[0] == 'p'
    ensures FlagMap[6].word[0] == 'o' && FlagMap[7].word[0] == 'u'
  {
  }

  /** An entry whose name starts with another letter than `s` is passed over. */
  lemma InitialSkip(t: seq<Entry<Flags>>, s: string, i: nat)
    requires i < |t| && |t[i].word| > 0 && |s| > 0 && t[i].word[0] != s[0]
    ensures ParseFrom(t, s, i) == ParseFrom(t, s, i + 1)
  {
  }

  lemma HoldAfterNoprune()
    ensures ParseFrom(FlagMap, "hold", 5) == 0
  {
    var t, b := FlagMap, "hold";
    assert b[0] == 'h';
    FlagInitials();
    InitialSkip(t, b, 5);
    InitialSkip(t, b, 6);
    InitialSkip(t, b, 7);
  }

  // ---------------------------------------------------------------------------
  // The "Status:" field

  /** isspace() of the C locale. */
  predicate IsSpace(c: char) {
    c == ' ' || '\t' <= c <= '\r'
  }

  predicate NoSpace(s: string) {
    forall l :: 0 <= l < |s| ==> !IsSpace(s[l])
  }

  /** The longest `%s` conversion field: `%63s`, for the 64-byte buffers. */
  const TokenMax: nat := 63

  /** A string `%63s` reads whole: non-empty, short enough, without white space. */
  predicate Word(w: string) {
    0 < |w| <= TokenMax && NoSpace(w)
  }

  /** Position of the first non-space character at or after `i`. */
  function SkipSpace(s: string, i: nat): (k: nat)
    requires i <= |s|
    ensures i <= k <= |s|
    ensures forall l :: i <= l < k ==> IsSpace(s[l])
    ensures k < |s| ==> !IsSpace(s[k])
    decreases |s| - i
  {
    if i < |s| && IsSpace(s[i]) then SkipSpace(s, i + 1) else i
  }

  /** End of a `%<n>s` field starting at `i`: at most n non-space characters. */
  function TokenEnd(s: string, i: nat, n: nat): (k: nat)
    requires i <= |s|
    ensures i <= k <= |s| && k - i <= n
    ensures forall l :: i <= l < k ==> !IsSpace(s[l])
    decreases n
  {
    if n > 0 && i < |s| && !IsSpace(s[i]) then TokenEnd(s, i + 1, n - 1) else i
  }

  /** One `%63s` directive: skip white space, then read a field; None at the end of input. */
  function ScanToken(s: string, i: nat): (r: Option<(string, nat)>)
    requires i <= |s|
    ensures r.Some? ==> i < r.value.1 <= |s| && Word(r.value.0)
  {
    var b := SkipSpace(s, i);
    if b == |s| then None
    else
      var e := TokenEnd(s, b, TokenMax);
      Some((s[b..e], e))
  }

  /** `sscanf(s, "%63s %63s %63s", ...)` when it converts all three fields; None when it does not. */
  function ScanStatus(s: string): Option<(string, string, string)> {
    match ScanToken(s, 0)
    case None => None
    case Some((a, i)) =>
      match ScanToken(s, i)
      case None => None
      case Some((b, j)) =>
        match ScanToken(s, j)
        case None => None
        case Some((c, _)) => Some((a, b, c))
  }

  /** The three states a status value stands for, or None when it does not hold three words. */
  function ParseStatus(s: string): Option<(int, Flags, int)> {
    match ScanStatus(s)
    case None => None
    case Some((w, f, t)) => Some((WantFromStr(w), FlagFromString(f), StatusFromStr(t)))
  }

  /** The value of the "Status:" field pkg_formatted_field() writes. */
  function StatusValue(sw: int, sf: Flags, ss: int): string {
    WantToStr(sw) + " " + FlagString(sf) + " " + StatusToStr(ss)
  }

  lemma {:induction false} TokenEndAt(s: string, i: nat, e: nat, n: nat)
    requires i <= e <= |s| && e - i <= n
    requires forall l :: i <= l < e ==> !IsSpace(s[l])
    requires e == |s| || IsSpace(s[e])
    ensures TokenEnd(s, i, n) == e
    decreases n
  {
    if i < e {
      TokenEndAt(s, i + 1, e, n - 1);
    }
  }

  /** `%63s` reads a word standing at `b` and followed by white space or the end as exactly that word. */
  lemma ScanWordAt(s: string, i: nat, b: nat, w: string)
    requires i <= b && b + |w| <= |s| && Word(w) && s[b..b + |w|] == w
    requires forall l :: i <= l < b ==> IsSpace(s[l])
    requires b + |w| == |s| || IsSpace(s[b + |w|])
    ensures ScanToken(s, i) == Some((w, b + |w|))
  {
    assert s[b] == w[0];
    forall l | b <= l < b + |w| ensures !IsSpace(s[l]) {
      assert s[l] == w[l - b];
    }
    TokenEndAt(s, b, b + |w|, TokenMax);
  }

  /** Three words separated by single spaces come back out of the scan. */
  lemma ScanThreeWords(a: string, b: string, c: string)
    requires Word(a) && Word(b) && Word(c)
    ensures ScanStatus(a + " " + b + " " + c) == Some((a, b, c))
  {
    var s := a + " " + b + " " + c;
    var i, j := |a|, |a| + 1 + |b|;
    assert s[0..i] == a;
    assert s[i] == ' ';
    ScanWordAt(s, 0, 0, a);
    assert s[i + 1..j] == b;
    assert s[j] == ' ';
    ScanWordAt(s, i, i + 1, b);
    assert s[j + 1..] == c;
    ScanWordAt(s, j, j + 1, c);
  }

  /** Room for every name from entry `i` on, each with its comma. */
  function NamesLength<V>(t: seq<Entry<V>>, i: nat): nat
    requires i <= |t|
    decreases |t| - i
  {
    if i == |t| then 0 else |t[i].word| + 1 + NamesLength(t, i + 1)
  }

  /** A list of names has no white space and no more characters than all the names with their commas. */
  lemma {:induction false} NamesNoSpace(t: seq<Entry<Flags>>, m: Flags, i: nat)
    requires Words(t) && i <= |t|
    ensures |Join(NamesFrom(t, m, i), ",")| <= NamesLength(t, i)
    ensures NoSpace(Join(NamesFrom(t, m, i), ","))
    decreases |t| - i
  {
    if i < |t| {
      NamesNoSpace(t, m, i + 1);
      var w, rest := t[i].word, NamesFrom(t, m, i + 1);
      assert Word(w);
      if Has(t, m, i) && rest != [] {
        var j := Join(NamesFrom(t, m, i), ",");
        var u := Join(rest, ",");
        assert j == w + "," + u;
        forall l | 0 <= l < |j| ensures !IsSpace(j[l]) {
          if l < |w| {
            assert j[l] == w[l];
          } else if l > |w| {
            assert j[l] == u[l - |w| - 1];
          }
        }
      }
    }
  }

  lemma FlagNamesLength()
    ensures NamesLength(FlagMap, 0) == 55
  {
    var t := FlagMap;
    assert NamesLength(t, 8) == 0;
    assert NamesLength(t, 7) == 5;
    assert NamesLength(t, 6) == 14;
    assert NamesLength(t, 5) == 21;
    assert NamesLength(t, 4) == 29;
    assert NamesLength(t, 3) == 37;
    assert NamesLength(t, 2) == 42;
    assert NamesLength(t, 1) == 52;
  }

  /** The flag string is itself a word. */
  lemma FlagStringWord(sf: Flags)
    ensures Word(FlagString(sf))
  {
    var m := sf & SF_NONVOLATILE_FLAGS;
    if m != 0 {
      FlagMapShape();
      NonVolatileInTable();
      NamesNonEmpty(FlagMap, m, 0);
      NamesNotOk(FlagMap, m, 0);
      NamesNoSpace(FlagMap, m, 0);
      FlagNamesLength();
    }
  }

  lemma WantWords()
    ensures Words(WantMap)
  {
  }

  lemma StatusWords()
    ensures Words(StatusMap)
  {
    forall i | 0 <= i < |StatusMap| ensures Word(StatusMap[i].word) {
      StatusWord(i);
    }
  }

  lemma StatusWord(i: nat)
    requires i < |StatusMap|
    ensures Word(StatusMap[i].word)
  {
    var w := StatusMap[i].word;
    assert i == 0 || i == 1 || i == 2 || i == 3 || i == 4 || i == 5 || i == 6 || i == 7;
    forall l | 0 <= l < |w| ensures !IsSpace(w[l]) {
      assert 'a' <= w[l] <= 'z' || w[l] == '-';
    }
  }

  /**
   * The "Status:" field round trip: reading back what the writer produced gives the
   * want and the status unchanged and the flags without their temporary bits.
   */
  lemma StatusValueRoundTrip(kw: nat, sf: Flags, ks: nat)
    requires kw < |WantMap| && ks < |StatusMap|
    ensures ParseStatus(StatusValue(WantMap[kw].value, sf, StatusMap[ks].value))
         == Some((WantMap[kw].value, sf & SF_NONVOLATILE_FLAGS, StatusMap[ks].value))
  {
    WantMapDistinct();
    StatusMapDistinct();
    ScansFindEntry(WantMap, kw, "<STATE_WANT_UNKNOWN>", SW_UNKNOWN);
    ScansFindEntry(StatusMap, ks, "<STATE_STATUS_UNKNOWN>", SS_NOT_INSTALLED);
    WantWords();
    StatusWords();
    FlagStringWord(sf);
    ScanThreeWords(WantMap[kw].word, FlagString(sf), StatusMap[ks].word);
    FlagRoundTrip(sf);
  }
}
