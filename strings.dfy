/**
 * String helpers shared by the modules: joining words with a separator (the
 * `strcat` loops of the C code), the first position of a character (`strchr`) and
 * splitting at a character, with the facts that tie them together.
 */
module CStrings {
  import opened Wrappers

  /** The words separated by `sep`. */
  function Join(ws: seq<string>, sep: string): string {
    if |ws| == 0 then ""
    else if |ws| == 1 then ws[0]
    else ws[0] + sep + Join(ws[1..], sep)
  }

  /** Appending one more word appends the separator and the word. */
  lemma {:induction false} JoinSnoc(ws: seq<string>, w: string, sep: string)
    requires ws != []
    ensures Join(ws + [w], sep) == Join(ws, sep) + sep + w
    decreases |ws|
  {
    if |ws| == 1 {
      assert (ws + [w])[1..] == [w];
    } else {
      assert (ws + [w])[1..] == ws[1..] + [w];
      JoinSnoc(ws[1..], w, sep);
    }
  }

  /** strchr(s, c): the position of the first `c`, or None. */
  function IndexOf(s: string, c: char): (r: Option<nat>)
    ensures r.Some? ==> r.value < |s| && s[r.value] == c && forall l :: 0 <= l < r.value ==> s[l] != c
    ensures r.None? ==> forall l :: 0 <= l < |s| ==> s[l] != c
  {
    if |s| == 0 then None
    else if s[0] == c then Some(0)
    else match IndexOf(s[1..], c)
      case None => None
      case Some(k) => Some(k + 1)
  }

  /** A `c` with no `c` before it is the first one. */
  lemma {:induction false} IndexOfAt(s: string, c: char, k: nat)
    requires k < |s| && s[k] == c && forall l :: 0 <= l < k ==> s[l] != c
    ensures IndexOf(s, c) == Some(k)
  {
    if k > 0 {
      IndexOfAt(s[1..], c, k - 1);
    }
  }

  /** The pieces of `s` between the occurrences of `c`. */
  function Split(s: string, c: char): (r: seq<string>)
    ensures |r| > 0
    decreases |s|
  {
    match IndexOf(s, c)
    case None => [s]
    case Some(k) => [s[..k]] + Split(s[k + 1..], c)
  }

  /** Splitting what was joined with a character none of the words holds gives the words back. */
  lemma {:induction false} SplitJoin(ws: seq<string>, c: char)
    requires ws != [] && forall k, l :: 0 <= k < |ws| && 0 <= l < |ws[k]| ==> ws[k][l] != c
    ensures Split(Join(ws, [c]), c) == ws
    decreases |ws|
  {
    if |ws| > 1 {
      var w, rest := ws[0], Join(ws[1..], [c]);
      var s := w + [c] + rest;
      assert Join(ws, [c]) == s;
      assert s[|w|] == c && forall l :: 0 <= l < |w| ==> s[l] == w[l];
      IndexOfAt(s, c, |w|);
      assert s[..|w|] == w && s[|w| + 1..] == rest;
      SplitJoin(ws[1..], c);
    }
  }

  /** str_list_remove_elt(): the list without its first element equal to `x`. */
  function RemoveFirst(l: seq<string>, x: string): seq<string> {
    if |l| == 0 then []
    else if l[0] == x then l[1..]
    else [l[0]] + RemoveFirst(l[1..], x)
  }

  /** A list without `x` is returned unchanged; otherwise exactly one copy of `x` goes and the rest keep their order. */
  lemma {:induction false} RemoveFirstSpec(l: seq<string>, x: string)
    ensures x !in l ==> RemoveFirst(l, x) == l
    ensures x in l ==> |RemoveFirst(l, x)| == |l| - 1 && multiset(RemoveFirst(l, x)) == multiset(l) - multiset{x}
  {
    if |l| > 0 {
      assert l == [l[0]] + l[1..];
      RemoveFirstSpec(l[1..], x);
    }
  }
}
