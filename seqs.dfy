/**
  Generic sequence operations that Python gives for free on `str` and `bytes`:
  the `in` test, `split`/`join`, and keeping the first occurrence of each
  element of a list.
 */
module Seqs {
  import opened Common

  /** `needle` occurs in `hay` starting at position `k`. */
  predicate OccursAt<T(==)>(hay: seq<T>, needle: seq<T>, k: int)
  {
    0 <= k && k + |needle| <= |hay| && hay[k..k + |needle|] == needle
  }

  /** Leftmost position at or after `start` where `needle` occurs. */
  function FindFrom<T(==)>(hay: seq<T>, needle: seq<T>, start: nat): (r: Option<nat>)
    ensures r.Some? ==> start <= r.value && OccursAt(hay, needle, r.value)
    ensures r.Some? ==> forall k :: start <= k < r.value ==> !OccursAt(hay, needle, k)
    ensures r.None? ==> forall k :: start <= k ==> !OccursAt(hay, needle, k)
    decreases |hay| - start
  {
    if start + |needle| > |hay| then None
    else if hay[start..start + |needle|] == needle then Some(start)
    else FindFrom(hay, needle, start + 1)
  }

  /** The leftmost occurrence of `needle` in `hay`: what `in` tests for and where `split` makes its first cut. */
  function FindFirst<T(==)>(hay: seq<T>, needle: seq<T>): (r: Option<nat>)
    ensures r.Some? ==> OccursAt(hay, needle, r.value)
    ensures r.Some? ==> forall k :: 0 <= k < r.value ==> !OccursAt(hay, needle, k)
    ensures r.None? <==> forall k :: !OccursAt(hay, needle, k)
  {
    FindFrom(hay, needle, 0)
  }

  /** Python's `needle in hay` for strings and bytes. */
  predicate Contains<T(==)>(hay: seq<T>, needle: seq<T>)
  {
    FindFirst(hay, needle).Some?
  }

  lemma ContainsEmpty<T>(hay: seq<T>)
    ensures Contains(hay, [])
  {
    assert OccursAt(hay, [], 0);
  }

  /** An occurrence inside a prefix is an occurrence in the whole. */
  lemma OccursInPrefix<T>(s: seq<T>, n: nat, needle: seq<T>, k: int)
    requires n <= |s|
    requires OccursAt(s[..n], needle, k)
    ensures OccursAt(s, needle, k) && k + |needle| <= n
  {
    assert s[..n][k..k + |needle|] == s[k..k + |needle|];
  }

  /** Python's `s.split(sep)`: cut at every leftmost, non-overlapping occurrence. */
  function Split<T(==)>(s: seq<T>, sep: seq<T>): (pieces: seq<seq<T>>)
    requires |sep| > 0
    ensures |pieces| >= 1
    decreases |s|
  {
    match FindFirst(s, sep)
    case None => [s]
    case Some(k) => [s[..k]] + Split(s[k + |sep|..], sep)
  }

  /** No piece of a split contains the separator. */
  lemma {:induction false} SplitPiecesFree<T>(s: seq<T>, sep: seq<T>)
    requires |sep| > 0
    ensures forall i :: 0 <= i < |Split(s, sep)| ==> !Contains(Split(s, sep)[i], sep)
    decreases |s|
  {
    match FindFirst(s, sep)
    case None =>
    case Some(k) =>
      var head := s[..k];
      var rest := s[k + |sep|..];
      SplitPiecesFree(rest, sep);
      SplitStep(s, sep, k);
      forall j | OccursAt(head, sep, j) ensures false {
        OccursInPrefix(s, k, sep, j);
      }
      forall i | 0 <= i < |Split(s, sep)| ensures !Contains(Split(s, sep)[i], sep) {
        if i > 0 {
          assert Split(s, sep)[i] == Split(rest, sep)[i - 1];
        }
      }
  }

  /** Python's `sep.join(pieces)`. */
  function Join<T>(pieces: seq<seq<T>>, sep: seq<T>): (r: seq<T>)
    ensures pieces == [] ==> r == []
    ensures |pieces| >= 1 ==> pieces[0] <= r
    ensures |pieces| >= 2 ==> pieces[0] + sep <= r
  {
    if |pieces| == 0 then []
    else if |pieces| == 1 then pieces[0]
    else pieces[0] + sep + Join(pieces[1..], sep)
  }

  /** The total length of a sequence of pieces. */
  function TotalLength<T>(pieces: seq<seq<T>>): nat
  {
    if pieces == [] then 0 else |pieces[0]| + TotalLength(pieces[1..])
  }

  /** A join is as long as its pieces together plus one separator between each two. */
  lemma {:induction false} JoinLength<T>(pieces: seq<seq<T>>, sep: seq<T>)
    requires pieces != []
    ensures |Join(pieces, sep)| == TotalLength(pieces) + (|pieces| - 1) * |sep|
    decreases |pieces|
  {
    if |pieces| > 1 {
      JoinLength(pieces[1..], sep);
    }
  }

  /** Splitting and joining back with the same separator gives the input back. */
  lemma {:induction false} JoinSplit<T>(s: seq<T>, sep: seq<T>)
    requires |sep| > 0
    ensures Join(Split(s, sep), sep) == s
    decreases |s|
  {
    var found := FindFirst(s, sep);
    if found.Some? {
      var k := found.value;
      var rest := s[k + |sep|..];
      JoinSplit(rest, sep);
      SplitStep(s, sep, k);
      JoinStep(s[..k], Split(rest, sep), sep);
      Reassemble(s, sep, k);
    }
  }

  lemma SplitStep<T>(s: seq<T>, sep: seq<T>, k: nat)
    requires |sep| > 0 && FindFirst(s, sep) == Some(k)
    ensures Split(s, sep) == [s[..k]] + Split(s[k + |sep|..], sep)
  {
    match FindFirst(s, sep)
    case Some(j) =>
      assert j == k;
  }

  lemma JoinStep<T>(head: seq<T>, tail: seq<seq<T>>, sep: seq<T>)
    requires tail != []
    ensures Join([head] + tail, sep) == head + sep + Join(tail, sep)
  {
    assert ([head] + tail)[1..] == tail;
  }

  /** The text before an occurrence, the occurrence and the text after make up the whole. */
  lemma Reassemble<T>(s: seq<T>, sep: seq<T>, k: nat)
    requires OccursAt(s, sep, k)
    ensures s[..k] + sep + s[k + |sep|..] == s
  {
    assert s == s[..k] + s[k..k + |sep|] + s[k + |sep|..];
  }

  predicate NoDuplicates<T(==)>(xs: seq<T>)
  {
    forall i, j :: 0 <= i < j < |xs| ==> xs[i] != xs[j]
  }

  /**
    Walks `xs` left to right and appends each element that is not yet kept,
    as a Python loop `if x not in out: out.append(x)` does.
   */
  function Dedup<T(==)>(xs: seq<T>): seq<T>
  {
    if xs == [] then []
    else
      var kept := Dedup(xs[..|xs| - 1]);
      if xs[|xs| - 1] in kept then kept else kept + [xs[|xs| - 1]]
  }

  /** Position of the first occurrence of `x` in `xs`. */
  function FirstIndex<T(==)>(xs: seq<T>, x: T): (i: nat)
    requires x in xs
    ensures i < |xs| && xs[i] == x && x !in xs[..i]
  {
    if xs[0] == x then 0
    else
      assert x in xs[1..] by { var j :| 0 <= j < |xs| && xs[j] == x; assert xs[1..][j - 1] == x; }
      var i := 1 + FirstIndex(xs[1..], x);
      assert xs[..i] == [xs[0]] + xs[1..][..i - 1];
      i
  }

  /** Dedup keeps exactly the distinct elements of its input, each once. */
  lemma {:induction false} DedupElements<T>(xs: seq<T>)
    ensures NoDuplicates(Dedup(xs))
    ensures forall x :: x in Dedup(xs) ==> x in xs
    ensures forall x :: x in xs ==> x in Dedup(xs)
    ensures |Dedup(xs)| <= |xs|
    ensures Dedup(xs) == [] <==> xs == []
  {
    if xs != [] {
      var init := xs[..|xs| - 1];
      DedupElements(init);
      assert xs == init + [xs[|xs| - 1]];
    }
  }

  /** Dedup lists the distinct elements in the order of their first occurrence. */
  lemma {:induction false} DedupFirstSeenOrder<T>(xs: seq<T>, i: nat, j: nat)
    requires i < j < |Dedup(xs)|
    ensures Dedup(xs)[i] in xs && Dedup(xs)[j] in xs
    ensures FirstIndex(xs, Dedup(xs)[i]) < FirstIndex(xs, Dedup(xs)[j])
  {
    assert xs != [];
    var init := xs[..|xs| - 1];
    var last := xs[|xs| - 1];
    var kept := Dedup(init);
    assert Dedup(xs) == if last in kept then kept else kept + [last];
    DedupElements(init);
    DedupElements(xs);
    assert xs == init + [last];
    var a, b := Dedup(xs)[i], Dedup(xs)[j];
    assert a in kept;
    DedupElements(init);
    assert a in init;
    FirstIndexOfPrefix(init, last, a);
    if j < |kept| {
      DedupFirstSeenOrder(init, i, j);
      FirstIndexOfPrefix(init, last, b);
    } else {
      assert b == last && last !in init;
      assert xs[..|xs| - 1] == init;
      assert FirstIndex(xs, b) == |xs| - 1;
    }
  }

  lemma FirstIndexOfPrefix<T>(init: seq<T>, last: T, x: T)
    requires x in init
    ensures FirstIndex(init + [last], x) == FirstIndex(init, x)
  {
    var xs := init + [last];
    var f, g := FirstIndex(xs, x), FirstIndex(init, x);
    assert xs[g] == x && xs[..g] == init[..g];
    assert f < |init| && init[f] == x && xs[..f] == init[..f];
  }
}
