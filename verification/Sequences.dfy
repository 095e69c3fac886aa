/** Notions about sequences that several modules share. */
module Sequences {

  datatype Option<T> = None | Some(value: T)

  ghost predicate Distinct<T>(s: seq<T>)
  {
    forall i, j :: 0 <= i < j < |s| ==> s[i] != s[j]
  }

  /** What taking the first element off a queue leaves. */
  lemma HeadGone<T>(q: seq<T>)
    requires q != [] && Distinct(q)
    ensures Distinct(q[1..]) && forall t :: t in q[1..] <==> t in q && t != q[0]
  {
    forall t | t in q && t != q[0] ensures t in q[1..] {
      var i :| 0 <= i < |q| && q[i] == t;
      assert q[1..][i - 1] == t;
    }
  }

  /** `s` with the elements from `pos` on overwritten by `t`. */
  function Splice<T>(s: seq<T>, pos: int, t: seq<T>): (r: seq<T>)
    requires 0 <= pos && pos + |t| <= |s|
    ensures |r| == |s|
    ensures forall i :: 0 <= i < |s| ==> r[i] == if pos <= i < pos + |t| then t[i - pos] else s[i]
  {
    s[..pos] + t + s[pos + |t|..]
  }

  /** What copying `src` over the beginning of `dst` leaves, as far as there is room. */
  function Overlay<T>(dst: seq<T>, src: seq<T>): (r: seq<T>)
    ensures |r| == |dst|
    ensures |src| == |dst| ==> r == src
  {
    if |src| <= |dst| then src + dst[|src|..] else src[..|dst|]
  }
}
