/**
 * Version-string comparison of libopkg/pkg.c (`order` and `verrevcmp`), the
 * algorithm of section 5.6.12 of the Debian Policy Manual: a version is read as
 * alternating runs of non-digits and digits; non-digit runs compare character by
 * character with `~` before everything (even the end of the string), then the end,
 * then letters, then all other characters; digit runs compare as numbers.
 *
 * A C string is modelled by a Dafny string and a position in it: reading at or past
 * the end of the sequence reads NUL, and an embedded NUL ends the string.  Every
 * phase of the comparison is a function from the two current positions to a `Step`:
 * either a verdict or the positions where the next phase starts.
 */
module Version {
  import opened Wrappers

  /** The character `s + i` points at. */
  function At(s: string, i: nat): char {
    if i < |s| then s[i] else '\0'
  }

  /** isdigit() and isalpha() of the C locale. */
  predicate IsDigit(c: char) {
    '0' <= c <= '9'
  }

  predicate IsAlpha(c: char) {
    'A' <= c <= 'Z' || 'a' <= c <= 'z'
  }

  /** The pointer stands on a character of a non-digit run. */
  predicate InNonDigit(s: string, i: nat) {
    At(s, i) != '\0' && !IsDigit(At(s, i))
  }

  /** `(int)x` for a `char x` on a platform where `char` is signed. */
  function SignedChar(c: char): int
    requires c as int < 256
  {
    if c as int < 128 then c as int else c as int - 256
  }

  /**
   * order() of pkg.c: the weight of one character of a non-digit run.  Bytes above
   * 127 are negative as signed chars, so `256 + x` gives them their own byte value.
   * Characters above U+00FF never occur in a C string; they get weights above every
   * byte so that the weights stay distinct.
   */
  function Order(c: char): int {
    if c == '~' then -1
    else if IsDigit(c) then 0
    else if c == '\0' then 0
    else if IsAlpha(c) then c as int
    else if c as int < 256 then 256 + SignedChar(c)
    else 256 + c as int
  }

  /** Two characters of equal weight, one of them in a non-digit run, are the same character. */
  lemma OrderEqual(a: char, b: char)
    requires (a != '\0' && !IsDigit(a)) || (b != '\0' && !IsDigit(b))
    requires Order(a) == Order(b)
    ensures a == b
  {
  }

  /** The outcome of one phase of a comparison round: a verdict, or where both pointers stand. */
  datatype Step = Done(result: int) | Next(i: nat, j: nat)

  /** First phase of a round: both pointers walk the non-digit run together, comparing weights. */
  function NonDigitRun(v: string, r: string, i: nat, j: nat): (st: Step)
    requires i <= |v| && j <= |r|
    ensures st.Next? ==> i <= st.i <= |v| && j <= st.j <= |r| && st.i - i == st.j - j
    ensures st.Next? ==> !InNonDigit(v, st.i) && !InNonDigit(r, st.j)
    decreases |v| - i
  {
    if InNonDigit(v, i) || InNonDigit(r, j) then
      var vc, rc := Order(At(v, i)), Order(At(r, j));
      if vc != rc then Done(vc - rc)
      else
        OrderEqual(At(v, i), At(r, j));
        NonDigitRun(v, r, i + 1, j + 1)
    else Next(i, j)
  }

  /** The position after the leading '0' characters (the `while (*val == '0')` loops). */
  function SkipZeros(s: string, i: nat): (k: nat)
    requires i <= |s|
    ensures i <= k <= |s| && At(s, k) != '0'
    decreases |s| - i
  {
    if At(s, i) == '0' then SkipZeros(s, i + 1) else i
  }

  /**
   * Second phase of a round, after the zeros: both pointers walk the common digit run;
   * `fd` is the first difference of two digits met so far (0 if none).  A longer run
   * wins; runs of equal length are decided by their first differing digit.
   */
  function DigitRun(v: string, r: string, i: nat, j: nat, fd: int): (st: Step)
    requires i <= |v| && j <= |r|
    ensures st.Next? ==> i <= st.i <= |v| && j <= st.j <= |r| && st.i - i == st.j - j
    ensures st.Next? ==> !IsDigit(At(v, st.i)) && !IsDigit(At(r, st.j))
    decreases |v| - i
  {
    if IsDigit(At(v, i)) && IsDigit(At(r, j)) then
      DigitRun(v, r, i + 1, j + 1, if fd == 0 then At(v, i) as int - At(r, j) as int else fd)
    else if IsDigit(At(v, i)) then Done(1)
    else if IsDigit(At(r, j)) then Done(-1)
    else if fd != 0 then Done(fd)
    else Next(i, j)
  }

  /**
   * One iteration of the outer loop of verrevcmp.  Unless both strings are at their end,
   * a round that does not decide the comparison moves at least one pointer.
   */
  function Round(v: string, r: string, i: nat, j: nat): (st: Step)
    requires i <= |v| && j <= |r|
    ensures st.Next? ==> i <= st.i <= |v| && j <= st.j <= |r|
    ensures st.Next? && !(At(v, i) == '\0' && At(r, j) == '\0') ==> st.i + st.j > i + j
  {
    match NonDigitRun(v, r, i, j)
    case Done(x) => Done(x)
    case Next(i1, j1) => DigitRun(v, r, SkipZeros(v, i1), SkipZeros(r, j1), 0)
  }

  /** The comparison of the rest of `v` from `i` with the rest of `r` from `j`. */
  function CompareFrom(v: string, r: string, i: nat, j: nat): int
    requires i <= |v| && j <= |r|
    decreases |v| - i + |r| - j
  {
    if At(v, i) == '\0' && At(r, j) == '\0' then 0
    else
      match Round(v, r, i, j)
      case Done(x) => x
      case Next(i', j') => CompareFrom(v, r, i', j')
  }

  /** The sign of the result orders version `v` against version `r`: negative, zero or positive. */
  function Compare(v: string, r: string): int {
    CompareFrom(v, r, 0, 0)
  }

  /** The first inner loop of verrevcmp: walk the non-digit run of both strings. */
  method ScanNonDigits(v: string, r: string, i0: nat, j0: nat) returns (st: Step)
    requires i0 <= |v| && j0 <= |r|
    ensures st == NonDigitRun(v, r, i0, j0)
  {
    var i, j := i0, j0;
    while (At(v, i) != '\0' && !IsDigit(At(v, i))) || (At(r, j) != '\0' && !IsDigit(At(r, j)))
      invariant i0 <= i <= |v| && j0 <= j <= |r|
      invariant NonDigitRun(v, r, i0, j0) == NonDigitRun(v, r, i, j)
      decreases |v| - i
    {
      var vc, rc := Order(At(v, i)), Order(At(r, j));
      if vc != rc {
        return Done(vc - rc);
      }
      OrderEqual(At(v, i), At(r, j));
      i, j := i + 1, j + 1;
    }
    return Next(i, j);
  }

  /** The `while (*val == '0') val++;` loops. */
  method ScanZeros(s: string, i0: nat) returns (i: nat)
    requires i0 <= |s|
    ensures i == SkipZeros(s, i0)
  {
    i := i0;
    while At(s, i) == '0'
      invariant i0 <= i <= |s| && SkipZeros(s, i0) == SkipZeros(s, i)
      decreases |s| - i
    {
      i := i + 1;
    }
  }

  /** The digit loop of verrevcmp and the three tests after it. */
  method ScanDigits(v: string, r: string, i0: nat, j0: nat) returns (st: Step)
    requires i0 <= |v| && j0 <= |r|
    ensures st == DigitRun(v, r, i0, j0, 0)
  {
    var i, j := i0, j0;
    var firstDiff := 0;
    while IsDigit(At(v, i)) && IsDigit(At(r, j))
      invariant i0 <= i <= |v| && j0 <= j <= |r|
      invariant DigitRun(v, r, i0, j0, 0) == DigitRun(v, r, i, j, firstDiff)
      decreases |v| - i
    {
      if firstDiff == 0 {
        firstDiff := At(v, i) as int - At(r, j) as int;
      }
      i, j := i + 1, j + 1;
    }
    if IsDigit(At(v, i)) {
      return Done(1);
    }
    if IsDigit(At(r, j)) {
      return Done(-1);
    }
    if firstDiff != 0 {
      return Done(firstDiff);
    }
    return Next(i, j);
  }

  /** verrevcmp(): a NULL version reads as the empty string. */
  method VerRevCmp(value: Option<string>, reference: Option<string>) returns (res: int)
    ensures res == Compare(value.GetOr(""), reference.GetOr(""))
  {
    var v, r := value.GetOr(""), reference.GetOr("");
    var i: nat, j: nat := 0, 0;
    while At(v, i) != '\0' || At(r, j) != '\0'
      invariant i <= |v| && j <= |r|
      invariant CompareFrom(v, r, i, j) == Compare(v, r)
      decreases |v| - i + |r| - j
    {
      var st := ScanNonDigits(v, r, i, j);
      if st.Done? {
        return st.result;
      }
      var iz := ScanZeros(v, st.i);
      var jz := ScanZeros(r, st.j);
      st := ScanDigits(v, r, iz, jz);
      if st.Done? {
        return st.result;
      }
      i, j := st.i, st.j;
    }
    return 0;
  }

  // ---------------------------------------------------------------------------
  // Reflexivity and antisymmetry
  // ---------------------------------------------------------------------------

  lemma {:induction false} NonDigitRunSelf(v: string, i: nat)
    requires i <= |v|
    ensures NonDigitRun(v, v, i, i).Next? && NonDigitRun(v, v, i, i).i == NonDigitRun(v, v, i, i).j
    decreases |v| - i
  {
    if InNonDigit(v, i) {
      NonDigitRunSelf(v, i + 1);
    }
  }

  lemma {:induction false} DigitRunSelf(v: string, i: nat)
    requires i <= |v|
    ensures DigitRun(v, v, i, i, 0).Next? && DigitRun(v, v, i, i, 0).i == DigitRun(v, v, i, i, 0).j
    decreases |v| - i
  {
    if IsDigit(At(v, i)) {
      DigitRunSelf(v, i + 1);
    }
  }

  lemma {:induction false} CompareFromSelf(v: string, i: nat)
    requires i <= |v|
    ensures CompareFrom(v, v, i, i) == 0
    decreases |v| - i
  {
    if At(v, i) != '\0' {
      NonDigitRunSelf(v, i);
      DigitRunSelf(v, SkipZeros(v, NonDigitRun(v, v, i, i).i));
      CompareFromSelf(v, Round(v, v, i, i).i);
    }
  }

  /** A version compares equal to itself. */
  lemma Reflexive(v: string)
    ensures Compare(v, v) == 0
  {
    CompareFromSelf(v, 0);
  }

  /** The same step seen with the two strings exchanged. */
  function Flip(st: Step): Step {
    match st
    case Done(x) => Done(-x)
    case Next(i, j) => Next(j, i)
  }

  lemma {:induction false} NonDigitRunFlip(v: string, r: string, i: nat, j: nat)
    requires i <= |v| && j <= |r|
    ensures NonDigitRun(r, v, j, i) == Flip(NonDigitRun(v, r, i, j))
    decreases |v| - i
  {
    if (InNonDigit(v, i) || InNonDigit(r, j)) && Order(At(v, i)) == Order(At(r, j)) {
      OrderEqual(At(v, i), At(r, j));
      NonDigitRunFlip(v, r, i + 1, j + 1);
    }
  }

  lemma {:induction false} DigitRunFlip(v: string, r: string, i: nat, j: nat, fd: int)
    requires i <= |v| && j <= |r|
    ensures DigitRun(r, v, j, i, -fd) == Flip(DigitRun(v, r, i, j, fd))
    decreases |v| - i
  {
    if IsDigit(At(v, i)) && IsDigit(At(r, j)) {
      DigitRunFlip(v, r, i + 1, j + 1, if fd == 0 then At(v, i) as int - At(r, j) as int else fd);
    }
  }

  lemma {:induction false} CompareFromFlip(v: string, r: string, i: nat, j: nat)
    requires i <= |v| && j <= |r|
    ensures CompareFrom(r, v, j, i) == -CompareFrom(v, r, i, j)
    decreases |v| - i + |r| - j
  {
    if !(At(v, i) == '\0' && At(r, j) == '\0') {
      NonDigitRunFlip(v, r, i, j);
      match NonDigitRun(v, r, i, j)
      case Done(_) =>
      case Next(i1, j1) =>
        DigitRunFlip(v, r, SkipZeros(v, i1), SkipZeros(r, j1), 0);
        assert Round(r, v, j, i) == Flip(Round(v, r, i, j));
        match Round(v, r, i, j)
        case Done(_) =>
        case Next(i2, j2) => CompareFromFlip(v, r, i2, j2);
    }
  }

  /** Exchanging the arguments negates the result. */
  lemma Antisymmetric(v: string, r: string)
    ensures Compare(r, v) == -Compare(v, r)
  {
    CompareFromFlip(v, r, 0, 0);
  }

  // ---------------------------------------------------------------------------
  // The comparison only reads the strings from the current positions onwards
  // ---------------------------------------------------------------------------

  /** The step with both positions moved right by `a` and `b`. */
  function Lift(st: Step, a: nat, b: nat): Step {
    match st
    case Done(x) => Done(x)
    case Next(i, j) => Next(i + a, j + b)
  }

  lemma AtOffset(p: string, x: string, i: nat)
    ensures At(p + x, |p| + i) == At(x, i)
  {
  }

  lemma {:induction false} NonDigitRunOffset(p: string, x: string, q: string, y: string, i: nat, j: nat)
    requires i <= |x| && j <= |y|
    ensures NonDigitRun(p + x, q + y, |p| + i, |q| + j) == Lift(NonDigitRun(x, y, i, j), |p|, |q|)
    decreases |x| - i
  {
    AtOffset(p, x, i);
    AtOffset(q, y, j);
    if (InNonDigit(x, i) || InNonDigit(y, j)) && Order(At(x, i)) == Order(At(y, j)) {
      OrderEqual(At(x, i), At(y, j));
      NonDigitRunOffset(p, x, q, y, i + 1, j + 1);
    }
  }

  lemma {:induction false} SkipZerosOffset(p: string, x: string, i: nat)
    requires i <= |x|
    ensures SkipZeros(p + x, |p| + i) == |p| + SkipZeros(x, i)
    decreases |x| - i
  {
    AtOffset(p, x, i);
    if At(x, i) == '0' {
      SkipZerosOffset(p, x, i + 1);
    }
  }

  lemma {:induction false} DigitRunOffset(p: string, x: string, q: string, y: string, i: nat, j: nat, fd: int)
    requires i <= |x| && j <= |y|
    ensures DigitRun(p + x, q + y, |p| + i, |q| + j, fd) == Lift(DigitRun(x, y, i, j, fd), |p|, |q|)
    decreases |x| - i
  {
    AtOffset(p, x, i);
    AtOffset(q, y, j);
    if IsDigit(At(x, i)) && IsDigit(At(y, j)) {
      DigitRunOffset(p, x, q, y, i + 1, j + 1, if fd == 0 then At(x, i) as int - At(y, j) as int else fd);
    }
  }

  lemma RoundOffset(p: string, x: string, q: string, y: string, i: nat, j: nat)
    requires i <= |x| && j <= |y|
    ensures Round(p + x, q + y, |p| + i, |q| + j) == Lift(Round(x, y, i, j), |p|, |q|)
  {
    NonDigitRunOffset(p, x, q, y, i, j);
    match NonDigitRun(x, y, i, j)
    case Done(_) =>
    case Next(i1, j1) =>
      SkipZerosOffset(p, x, i1);
      SkipZerosOffset(q, y, j1);
      DigitRunOffset(p, x, q, y, SkipZeros(x, i1), SkipZeros(y, j1), 0);
  }

  lemma {:induction false} CompareFromOffset(p: string, x: string, q: string, y: string, i: nat, j: nat)
    requires i <= |x| && j <= |y|
    ensures CompareFrom(p + x, q + y, |p| + i, |q| + j) == CompareFrom(x, y, i, j)
    decreases |x| - i + |y| - j
  {
    AtOffset(p, x, i);
    AtOffset(q, y, j);
    if !(At(x, i) == '\0' && At(y, j) == '\0') {
      RoundOffset(p, x, q, y, i, j);
      match Round(x, y, i, j)
      case Done(_) =>
      case Next(i2, j2) => CompareFromOffset(p, x, q, y, i2, j2);
    }
  }

  // ---------------------------------------------------------------------------
  // A common prefix cancels
  // ---------------------------------------------------------------------------

  predicate NoNul(s: string) {
    forall k :: 0 <= k < |s| ==> s[k] != '\0'
  }

  /**
   * A common prefix `p` can be dropped when it does not end inside a digit run that
   * continues into the rest: `p` is empty, ends in a non-digit, or both rests start
   * outside a digit run.
   */
  predicate CancelsBefore(p: string, x: string, y: string) {
    p == [] || !IsDigit(p[|p| - 1]) || (!IsDigit(At(x, 0)) && !IsDigit(At(y, 0)))
  }

  /** The first position at or after k whose character satisfies `digit == IsDigit(c)`, or |s|. */
  function FindClass(s: string, k: nat, digit: bool): (m: nat)
    requires k <= |s|
    ensures k <= m <= |s|
    ensures forall l :: k <= l < m ==> IsDigit(s[l]) != digit
    ensures m < |s| ==> IsDigit(s[m]) == digit
    decreases |s| - k
  {
    if k == |s| || IsDigit(s[k]) == digit then k else FindClass(s, k + 1, digit)
  }

  /** The first position at or after k that is not '0', or |s|. */
  function FindNonZero(s: string, k: nat): (m: nat)
    requires k <= |s|
    ensures k <= m <= |s|
    ensures forall l :: k <= l < m ==> s[l] == '0'
    ensures m < |s| ==> s[m] != '0'
    decreases |s| - k
  {
    if k == |s| || s[k] != '0' then k else FindNonZero(s, k + 1)
  }

  /** Both pointers walk a stretch of equal non-digit characters. */
  lemma {:induction false} WalkNonDigits(v: string, r: string, k: nat, m: nat)
    requires k <= m <= |v| && m <= |r|
    requires forall l :: k <= l < m ==> v[l] == r[l] && v[l] != '\0' && !IsDigit(v[l])
    ensures NonDigitRun(v, r, k, k) == NonDigitRun(v, r, m, m)
    decreases m - k
  {
    if k < m {
      WalkNonDigits(v, r, k + 1, m);
    }
  }

  lemma {:induction false} WalkZeros(s: string, k: nat, m: nat)
    requires k <= m <= |s|
    requires forall l :: k <= l < m ==> s[l] == '0'
    ensures SkipZeros(s, k) == SkipZeros(s, m)
    decreases m - k
  {
    if k < m {
      WalkZeros(s, k + 1, m);
    }
  }

  /** Both pointers walk a stretch of equal digits: the first difference stays what it was. */
  lemma {:induction false} WalkDigits(v: string, r: string, k: nat, m: nat, fd: int)
    requires k <= m <= |v| && m <= |r|
    requires forall l :: k <= l < m ==> v[l] == r[l] && IsDigit(v[l])
    ensures DigitRun(v, r, k, k, fd) == DigitRun(v, r, m, m, fd)
    decreases m - k
  {
    if k < m {
      WalkDigits(v, r, k + 1, m, fd);
    }
  }

  /** Inside a common prefix whose rest has no digit, a round reaches the end of the prefix. */
  lemma PrefixNonDigitTail(p: string, x: string, y: string, k: nat)
    requires k < |p| && NoNul(p) && CancelsBefore(p, x, y) && FindClass(p, k, true) == |p|
    ensures CompareFrom(p + x, p + y, k, k) == CompareFrom(p + x, p + y, |p|, |p|)
  {
    var v, r := p + x, p + y;
    AtOffset(p, x, 0);
    AtOffset(p, y, 0);
    WalkNonDigits(v, r, k, |p|);
    assert Round(v, r, k, k) == Round(v, r, |p|, |p|);
  }

  /** Inside a common prefix, a round that meets a digit run of the prefix ends just after it. */
  lemma PrefixDigitRound(p: string, x: string, y: string, k: nat) returns (e: nat)
    requires k < |p| && NoNul(p) && CancelsBefore(p, x, y) && FindClass(p, k, true) < |p|
    ensures k < e <= |p| && Round(p + x, p + y, k, k) == Next(e, e)
  {
    var v, r := p + x, p + y;
    AtOffset(p, x, 0);
    AtOffset(p, y, 0);
    var m := FindClass(p, k, true);
    WalkNonDigits(v, r, k, m);
    var z := FindNonZero(p, m);
    WalkZeros(v, m, z);
    WalkZeros(r, m, z);
    e := FindClass(p, z, false);
    WalkDigits(v, r, z, e, 0);
    assert forall l :: m <= l < e ==> IsDigit(p[l]);
    assert SkipZeros(v, m) == z && SkipZeros(r, m) == z;
    assert DigitRun(v, r, e, e, 0) == Next(e, e);
  }

  /** From any position inside a common prefix, the comparison equals the one from its end. */
  lemma {:induction false} CommonPrefixFrom(p: string, x: string, y: string, k: nat)
    requires k <= |p| && NoNul(p) && CancelsBefore(p, x, y)
    ensures CompareFrom(p + x, p + y, k, k) == CompareFrom(p + x, p + y, |p|, |p|)
    decreases |p| - k
  {
    if k < |p| {
      if FindClass(p, k, true) == |p| {
        PrefixNonDigitTail(p, x, y, k);
      } else {
        var e := PrefixDigitRound(p, x, y, k);
        assert (p + x)[k] == p[k];
        CommonPrefixFrom(p, x, y, e);
      }
    }
  }

  /** A common prefix that does not end inside a digit run does not change the comparison. */
  lemma PrefixCancel(p: string, x: string, y: string)
    requires NoNul(p) && CancelsBefore(p, x, y)
    ensures Compare(p + x, p + y) == Compare(x, y)
  {
    var start := 0;
    CommonPrefixFrom(p, x, y, start);
    CompareFromOffset(p, x, p, y, start, start);
    assert |p| + start == |p|;
  }

  // ---------------------------------------------------------------------------
  // The character order
  // ---------------------------------------------------------------------------

  /** `~` sorts before everything, the end of the string included. */
  lemma TildeFirst(p: string, x: string, y: string)
    requires NoNul(p) && At(y, 0) != '~'
    requires p == [] || !IsDigit(p[|p| - 1]) || !IsDigit(At(y, 0))
    ensures Compare(p + "~" + x, p + y) < 0
  {
    assert p + "~" + x == p + ("~" + x);
    PrefixCancel(p, "~" + x, y);
    assert NonDigitRun("~" + x, y, 0, 0) == Done(-1 - Order(At(y, 0)));
  }

  lemma TildeBeforeRelease()
    ensures Compare("1.0~rc1", "1.0") < 0
  {
    assert NoNul("1.0");
    TildeFirst("1.0", "rc1", "");
    assert "1.0" + "~" + "rc1" == "1.0~rc1" && "1.0" + "" == "1.0";
  }

  /** The end of a version sorts before any non-digit other than `~`. */
  lemma EndBeforeNonDigit(p: string, c: char, y: string)
    requires NoNul(p) && c != '\0' && c != '~' && !IsDigit(c)
    ensures Compare(p, p + [c] + y) < 0
  {
    assert p == p + "" && p + [c] + y == p + ([c] + y);
    PrefixCancel(p, "", [c] + y);
    assert NonDigitRun("", [c] + y, 0, 0) == Done(-Order(c));
  }

  /** Letters sort before every other non-digit character except `~`. */
  lemma LetterBeforeNonLetter(p: string, a: char, x: string, c: char, y: string)
    requires NoNul(p) && IsAlpha(a)
    requires c != '\0' && c != '~' && !IsDigit(c) && !IsAlpha(c)
    ensures Compare(p + [a] + x, p + [c] + y) < 0
  {
    assert p + [a] + x == p + ([a] + x) && p + [c] + y == p + ([c] + y);
    PrefixCancel(p, [a] + x, [c] + y);
    assert NonDigitRun([a] + x, [c] + y, 0, 0) == Done(Order(a) - Order(c));
  }

  // ---------------------------------------------------------------------------
  // Digit runs compare as numbers
  // ---------------------------------------------------------------------------

  /** The first round over zeros and a number ends where the round over the number alone ends, shifted. */
  lemma ZerosRound(zs: string, x: string)
    requires |zs| > 0 && forall l :: 0 <= l < |zs| ==> zs[l] == '0'
    requires x == [] || IsDigit(x[0])
    ensures Round(x, x, 0, 0).Next? && Round(x, x, 0, 0).i == Round(x, x, 0, 0).j
    ensures Round(zs + x, x, 0, 0) == Lift(Round(x, x, 0, 0), |zs|, 0)
  {
    var v, n := zs + x, |zs|;
    assert [] + x == x;
    assert NonDigitRun(v, x, 0, 0) == Next(0, 0);
    assert NonDigitRun(x, x, 0, 0) == Next(0, 0);
    WalkZeros(v, 0, n);
    SkipZerosOffset(zs, x, 0);
    var z := SkipZeros(x, 0);
    DigitRunOffset(zs, x, [], x, z, z, 0);
    DigitRunSelf(x, z);
  }

  /** A run of zeros in front of a number or the end compares equal to nothing. */
  lemma ZerosThenSame(zs: string, x: string)
    requires |zs| > 0 && forall l :: 0 <= l < |zs| ==> zs[l] == '0'
    requires x == [] || IsDigit(x[0])
    ensures Compare(zs + x, x) == 0
  {
    ZerosRound(zs, x);
    var e := Round(x, x, 0, 0).i;
    assert [] + x == x;
    assert At(zs + x, 0) == '0';
    CompareFromOffset(zs, x, [], x, e, e);
    CompareFromSelf(x, e);
  }

  /** Leading zeros of a numeric run are ignored. */
  lemma LeadingZerosIgnored(p: string, n: nat, x: string)
    requires NoNul(p) && (p == [] || !IsDigit(p[|p| - 1]))
    requires x == [] || IsDigit(x[0])
    ensures Compare(p + seq(n, _ => '0') + x, p + x) == 0
  {
    var zs: string := seq(n, _ => '0');
    assert p + zs + x == p + (zs + x);
    PrefixCancel(p, zs + x, x);
    if n == 0 {
      assert zs + x == x;
      Reflexive(x);
    } else {
      ZerosThenSame(zs, x);
    }
  }

  lemma LeadingZeroExample()
    ensures Compare("1.01", "1.1") == 0
  {
    assert NoNul("1.");
    LeadingZerosIgnored("1.", 1, "1");
    assert "1." + seq(1, _ => '0') + "1" == "1.01" && "1." + "1" == "1.1";
  }

  predicate AllDigits(d: string) {
    forall l :: 0 <= l < |d| ==> IsDigit(d[l])
  }

  lemma {:induction false} LongerRun(v: string, r: string, k: nat, n: nat, fd: int)
    requires k <= n < |v| && n <= |r|
    requires forall l :: k <= l <= n ==> IsDigit(v[l])
    requires forall l :: k <= l < n ==> IsDigit(r[l])
    requires !IsDigit(At(r, n))
    ensures DigitRun(v, r, k, k, fd) == Done(1)
    decreases n - k
  {
    if k < n {
      LongerRun(v, r, k + 1, n, if fd == 0 then At(v, k) as int - At(r, k) as int else fd);
    }
  }

  lemma {:induction false} KeepFirstDiff(v: string, r: string, k: nat, m: nat, fd: int)
    requires k <= m <= |v| && m <= |r| && fd != 0
    requires forall l :: k <= l < m ==> IsDigit(v[l]) && IsDigit(r[l])
    requires !IsDigit(At(v, m)) && !IsDigit(At(r, m))
    ensures DigitRun(v, r, k, k, fd) == Done(fd)
    decreases m - k
  {
    if k < m {
      KeepFirstDiff(v, r, k + 1, m, fd);
    }
  }

  /** After the leading zeros, the longer numeric run is the greater. */
  lemma LongerNumberGreater(p: string, d1: string, x: string, d2: string, y: string)
    requires NoNul(p) && (p == [] || !IsDigit(p[|p| - 1]))
    requires AllDigits(d1) && AllDigits(d2) && |d1| > |d2| > 0 && d1[0] != '0' && d2[0] != '0'
    requires !IsDigit(At(x, 0)) && !IsDigit(At(y, 0))
    ensures Compare(p + d1 + x, p + d2 + y) == 1
  {
    var v, r := d1 + x, d2 + y;
    assert p + d1 + x == p + v && p + d2 + y == p + r;
    PrefixCancel(p, v, r);
    AtOffset(d2, y, 0);
    LongerRun(v, r, 0, |d2|, 0);
    assert Round(v, r, 0, 0) == Done(1);
  }

  /** Numeric runs of equal length are decided by their first differing digit. */
  lemma EqualLengthFirstDiff(p: string, d1: string, x: string, d2: string, y: string, n: nat)
    requires NoNul(p) && (p == [] || !IsDigit(p[|p| - 1]))
    requires AllDigits(d1) && AllDigits(d2) && n < |d1| == |d2| && d1[0] != '0' && d2[0] != '0'
    requires d1[n] != d2[n] && forall l :: 0 <= l < n ==> d1[l] == d2[l]
    requires !IsDigit(At(x, 0)) && !IsDigit(At(y, 0))
    ensures Compare(p + d1 + x, p + d2 + y) == d1[n] as int - d2[n] as int
  {
    var v, r := d1 + x, d2 + y;
    assert p + d1 + x == p + v && p + d2 + y == p + r;
    PrefixCancel(p, v, r);
    AtOffset(d1, x, 0);
    AtOffset(d2, y, 0);
    WalkDigits(v, r, 0, n, 0);
    KeepFirstDiff(v, r, n + 1, |d1|, d1[n] as int - d2[n] as int);
    assert Round(v, r, 0, 0) == DigitRun(v, r, n, n, 0);
  }

  lemma NumericExample()
    ensures Compare("1.10", "1.9") > 0
  {
    assert NoNul("1.") && AllDigits("10") && AllDigits("9");
    LongerNumberGreater("1.", "10", "", "9", "");
    assert "1." + "10" + "" == "1.10" && "1." + "9" + "" == "1.9";
  }

  // ---------------------------------------------------------------------------
  // Transitivity: the comparison orders versions by a key
  // ---------------------------------------------------------------------------

  function Sign(x: int): int {
    if x < 0 then -1 else if x > 0 then 1 else 0
  }

  /** The first element of a key, read as 0 past its end. */
  function First(a: seq<int>): int {
    if a == [] then 0 else a[0]
  }

  function Rest(a: seq<int>): seq<int> {
    if a == [] then [] else a[1..]
  }

  /**
   * Lexicographic order of two keys, each read as continuing with zeros forever:
   * -1, 0 or 1.
   */
  function LexCmp(a: seq<int>, b: seq<int>): (c: int)
    ensures -1 <= c <= 1
    decreases |a| + |b|
  {
    if a == [] && b == [] then 0
    else if First(a) < First(b) then -1
    else if First(a) > First(b) then 1
    else LexCmp(Rest(a), Rest(b))
  }

  /** The order of keys is transitive, and strictly so when either step is strict. */
  lemma {:induction false} LexCmpTransitive(a: seq<int>, b: seq<int>, c: seq<int>)
    requires LexCmp(a, b) <= 0 && LexCmp(b, c) <= 0
    ensures LexCmp(a, c) <= 0
    ensures LexCmp(a, b) < 0 || LexCmp(b, c) < 0 ==> LexCmp(a, c) < 0
    decreases |a| + |b| + |c|
  {
    if !(a == [] && b == [] && c == []) && First(a) == First(b) == First(c) {
      LexCmpTransitive(Rest(a), Rest(b), Rest(c));
    }
  }

  /** A trailing zero does not change the order of keys. */
  lemma {:induction false} LexCmpPad(a: seq<int>, b: seq<int>)
    ensures LexCmp(a + [0], b) == LexCmp(a, b) && LexCmp(b, a + [0]) == LexCmp(b, a)
    decreases |a| + |b|
  {
    if a == [] {
      assert Rest([0]) == [];
    } else {
      assert Rest(a + [0]) == Rest(a) + [0];
      LexCmpPad(Rest(a), Rest(b));
    }
  }

  /** The position after the digit run starting at `i`. */
  function DigitEnd(s: string, i: nat): (e: nat)
    requires i <= |s|
    ensures i <= e <= |s| && !IsDigit(At(s, e))
    decreases |s| - i
  {
    if IsDigit(At(s, i)) then DigitEnd(s, i + 1) else i
  }

  /** The character codes of `s[i..e]`. */
  function Digits(s: string, i: nat, e: nat): seq<int>
    requires i <= e <= |s|
    decreases e - i
  {
    if i == e then [] else [s[i] as int] + Digits(s, i + 1, e)
  }

  /**
   * The key of the rest of `s` from `i`: each non-digit contributes its weight;
   * each digit run contributes a 0 (the weight of what ends a non-digit run), the
   * length of the run without its leading zeros, and those digits.  The end of
   * the string contributes nothing, which the order reads as zeros.
   */
  function Key(s: string, i: nat): seq<int>
    requires i <= |s|
    decreases |s| - i
  {
    if InNonDigit(s, i) then [Order(At(s, i))] + Key(s, i + 1)
    else if At(s, i) == '\0' then []
    else
      var z := SkipZeros(s, i);
      var e := DigitEnd(s, z);
      [0] + ([e - z] + (Digits(s, z, e) + Key(s, e)))
  }

  /** The key of a digit run, or of the end of the string read as an empty run. */
  function NumberKey(s: string, i: nat): seq<int>
    requires i <= |s|
  {
    var z := SkipZeros(s, i);
    var e := DigitEnd(s, z);
    [0] + ([e - z] + (Digits(s, z, e) + Key(s, e)))
  }

  /** Keys that start with one element each are ordered by it first. */
  lemma LexCmpCons(x: int, a: seq<int>, y: int, b: seq<int>)
    ensures LexCmp([x] + a, [y] + b) == if x < y then -1 else if x > y then 1 else LexCmp(a, b)
  {
    assert Rest([x] + a) == a && Rest([y] + b) == b;
  }

  lemma KeyAsNumber(s: string, i: nat, x: seq<int>)
    requires i <= |s| && !InNonDigit(s, i)
    ensures LexCmp(Key(s, i), x) == LexCmp(NumberKey(s, i), x)
    ensures LexCmp(x, Key(s, i)) == LexCmp(x, NumberKey(s, i))
  {
    if At(s, i) == '\0' {
      assert NumberKey(s, i) == [0] + [0];
      LexCmpPad([], x);
      LexCmpPad([0], x);
    }
  }

  lemma KeyFirst(s: string, i: nat)
    requires i <= |s|
    ensures First(Key(s, i)) == Order(At(s, i))
    ensures InNonDigit(s, i) ==> Key(s, i) != [] && Rest(Key(s, i)) == Key(s, i + 1)
  {
  }

  /** The non-digit phase walks both keys in step. */
  lemma {:induction false} NonDigitRunKey(v: string, r: string, i: nat, j: nat)
    requires i <= |v| && j <= |r|
    ensures match NonDigitRun(v, r, i, j)
      case Done(x) => LexCmp(Key(v, i), Key(r, j)) == Sign(x)
      case Next(i1, j1) => LexCmp(Key(v, i), Key(r, j)) == LexCmp(Key(v, i1), Key(r, j1))
    decreases |v| - i
  {
    KeyFirst(v, i);
    KeyFirst(r, j);
    if (InNonDigit(v, i) || InNonDigit(r, j)) && Order(At(v, i)) == Order(At(r, j)) {
      OrderEqual(At(v, i), At(r, j));
      NonDigitRunKey(v, r, i + 1, j + 1);
    }
  }

  /** A longer digit run wins, whatever came before in the runs. */
  lemma {:induction false} DigitRunLonger(v: string, r: string, i: nat, j: nat, fd: int)
    requires i <= |v| && j <= |r|
    ensures DigitEnd(v, i) - i > DigitEnd(r, j) - j ==> DigitRun(v, r, i, j, fd) == Done(1)
    ensures DigitEnd(v, i) - i < DigitEnd(r, j) - j ==> DigitRun(v, r, i, j, fd) == Done(-1)
    decreases |v| - i
  {
    if IsDigit(At(v, i)) && IsDigit(At(r, j)) {
      DigitRunLonger(v, r, i + 1, j + 1, if fd == 0 then At(v, i) as int - At(r, j) as int else fd);
    }
  }

  /** Once a difference is recorded, runs of equal length end with it. */
  lemma {:induction false} DigitRunKeeps(v: string, r: string, i: nat, j: nat, fd: int)
    requires i <= |v| && j <= |r| && fd != 0
    requires DigitEnd(v, i) - i == DigitEnd(r, j) - j
    ensures DigitRun(v, r, i, j, fd) == Done(fd)
    decreases |v| - i
  {
    if IsDigit(At(v, i)) {
      DigitRunKeeps(v, r, i + 1, j + 1, fd);
    }
  }

  /** Digit runs of equal length compare as their digit sequences, followed by what comes next. */
  lemma {:induction false} DigitRunSameLength(v: string, r: string, i: nat, j: nat, tv: seq<int>, tr: seq<int>)
    requires i <= |v| && j <= |r|
    requires DigitEnd(v, i) - i == DigitEnd(r, j) - j
    ensures var dv, dr := Digits(v, i, DigitEnd(v, i)) + tv, Digits(r, j, DigitEnd(r, j)) + tr;
      match DigitRun(v, r, i, j, 0)
      case Done(x) => Sign(x) == LexCmp(dv, dr)
      case Next(i2, j2) => i2 == DigitEnd(v, i) && j2 == DigitEnd(r, j) && LexCmp(dv, dr) == LexCmp(tv, tr)
    decreases |v| - i
  {
    var ev, er := DigitEnd(v, i), DigitEnd(r, j);
    if IsDigit(At(v, i)) {
      var dv, dr := Digits(v, i, ev) + tv, Digits(r, j, er) + tr;
      assert dv == [v[i] as int] + (Digits(v, i + 1, ev) + tv);
      assert dr == [r[j] as int] + (Digits(r, j + 1, er) + tr);
      var d := At(v, i) as int - At(r, j) as int;
      if d == 0 {
        DigitRunSameLength(v, r, i + 1, j + 1, tv, tr);
        assert LexCmp(dv, dr) == LexCmp(Rest(dv), Rest(dr));
      } else {
        DigitRunKeeps(v, r, i + 1, j + 1, d);
      }
    } else {
      assert Digits(v, i, ev) + tv == tv && Digits(r, j, er) + tr == tr;
    }
  }

  /** The digit runs' keys are ordered as the digit loop decides. */
  lemma NumberKeyOrder(v: string, r: string, i: nat, j: nat)
    requires i <= |v| && j <= |r|
    ensures match DigitRun(v, r, SkipZeros(v, i), SkipZeros(r, j), 0)
      case Done(x) => LexCmp(NumberKey(v, i), NumberKey(r, j)) == Sign(x)
      case Next(i2, j2) => LexCmp(NumberKey(v, i), NumberKey(r, j)) == LexCmp(Key(v, i2), Key(r, j2))
  {
    var zv, zr := SkipZeros(v, i), SkipZeros(r, j);
    var ev, er := DigitEnd(v, zv), DigitEnd(r, zr);
    var tv, tr := Digits(v, zv, ev) + Key(v, ev), Digits(r, zr, er) + Key(r, er);
    LexCmpCons(0, [ev - zv] + tv, 0, [er - zr] + tr);
    LexCmpCons(ev - zv, tv, er - zr, tr);
    DigitRunLonger(v, r, zv, zr, 0);
    if ev - zv == er - zr {
      DigitRunSameLength(v, r, zv, zr, Key(v, ev), Key(r, er));
    }
  }

  /** The digit phase of a round walks both keys in step. */
  lemma DigitPhaseKey(v: string, r: string, i: nat, j: nat)
    requires i <= |v| && j <= |r| && !InNonDigit(v, i) && !InNonDigit(r, j)
    ensures match DigitRun(v, r, SkipZeros(v, i), SkipZeros(r, j), 0)
      case Done(x) => LexCmp(Key(v, i), Key(r, j)) == Sign(x)
      case Next(i2, j2) => LexCmp(Key(v, i), Key(r, j)) == LexCmp(Key(v, i2), Key(r, j2))
  {
    KeyAsNumber(v, i, Key(r, j));
    KeyAsNumber(r, j, NumberKey(v, i));
    NumberKeyOrder(v, r, i, j);
  }

  /** The sign of the comparison from two positions is the order of the two keys from there. */
  lemma {:induction false} CompareFromKey(v: string, r: string, i: nat, j: nat)
    requires i <= |v| && j <= |r|
    ensures Sign(CompareFrom(v, r, i, j)) == LexCmp(Key(v, i), Key(r, j))
    decreases |v| - i + |r| - j
  {
    if !(At(v, i) == '\0' && At(r, j) == '\0') {
      NonDigitRunKey(v, r, i, j);
      match NonDigitRun(v, r, i, j)
      case Done(_) =>
      case Next(i1, j1) =>
        DigitPhaseKey(v, r, i1, j1);
        match Round(v, r, i, j)
        case Done(_) =>
        case Next(i2, j2) => CompareFromKey(v, r, i2, j2);
    }
  }

  /** verrevcmp orders versions as their keys: its sign is the key order. */
  lemma CompareIsKeyOrder(v: string, r: string)
    ensures Sign(Compare(v, r)) == LexCmp(Key(v, 0), Key(r, 0))
  {
    CompareFromKey(v, r, 0, 0);
  }

  /** The comparison is transitive, and strictly so when either comparison is strict. */
  lemma Transitive(a: string, b: string, c: string)
    requires Compare(a, b) <= 0 && Compare(b, c) <= 0
    ensures Compare(a, c) <= 0
    ensures Compare(a, b) < 0 || Compare(b, c) < 0 ==> Compare(a, c) < 0
  {
    CompareIsKeyOrder(a, b);
    CompareIsKeyOrder(b, c);
    CompareIsKeyOrder(a, c);
    LexCmpTransitive(Key(a, 0), Key(b, 0), Key(c, 0));
  }

  /** Versions that compare equal to a third compare equal to each other. */
  lemma SameTransitive(a: string, b: string, c: string)
    requires Compare(a, b) == 0 && Compare(b, c) == 0
    ensures Compare(a, c) == 0
  {
    Transitive(a, b, c);
    Antisymmetric(a, b);
    Antisymmetric(b, c);
    Transitive(c, b, a);
    Antisymmetric(a, c);
  }

  // ---------------------------------------------------------------------------
  // No pointer ever moves past a terminator
  // ---------------------------------------------------------------------------

  lemma {:induction false} NonDigitRunInString(v: string, r: string, i: nat, j: nat)
    requires i <= |v| && j <= |r|
    ensures NonDigitRun(v, r, i, j).Next? ==>
      (forall l :: i <= l < NonDigitRun(v, r, i, j).i ==> v[l] != '\0') &&
      (forall l :: j <= l < NonDigitRun(v, r, i, j).j ==> r[l] != '\0')
    decreases |v| - i
  {
    if (InNonDigit(v, i) || InNonDigit(r, j)) && Order(At(v, i)) == Order(At(r, j)) {
      OrderEqual(At(v, i), At(r, j));
      NonDigitRunInString(v, r, i + 1, j + 1);
    }
  }

  lemma {:induction false} SkipZerosInString(s: string, i: nat)
    requires i <= |s|
    ensures forall l :: i <= l < SkipZeros(s, i) ==> s[l] == '0'
    decreases |s| - i
  {
    if At(s, i) == '0' {
      SkipZerosInString(s, i + 1);
    }
  }

  lemma {:induction false} DigitRunInString(v: string, r: string, i: nat, j: nat, fd: int)
    requires i <= |v| && j <= |r|
    ensures DigitRun(v, r, i, j, fd).Next? ==>
      (forall l :: i <= l < DigitRun(v, r, i, j, fd).i ==> IsDigit(v[l])) &&
      (forall l :: j <= l < DigitRun(v, r, i, j, fd).j ==> IsDigit(r[l]))
    decreases |v| - i
  {
    if IsDigit(At(v, i)) && IsDigit(At(r, j)) {
      DigitRunInString(v, r, i + 1, j + 1, if fd == 0 then At(v, i) as int - At(r, j) as int else fd);
    }
  }

  /** A round that hands on to the next one has only stepped over characters before a NUL. */
  lemma RoundInString(v: string, r: string, i: nat, j: nat)
    requires i <= |v| && j <= |r|
    ensures Round(v, r, i, j).Next? ==>
      (forall l :: i <= l < Round(v, r, i, j).i ==> v[l] != '\0') &&
      (forall l :: j <= l < Round(v, r, i, j).j ==> r[l] != '\0')
  {
    NonDigitRunInString(v, r, i, j);
    match NonDigitRun(v, r, i, j)
    case Done(_) =>
    case Next(i1, j1) =>
      SkipZerosInString(v, i1);
      SkipZerosInString(r, j1);
      var iz, jz := SkipZeros(v, i1), SkipZeros(r, j1);
      DigitRunInString(v, r, iz, jz, 0);
  }
}
