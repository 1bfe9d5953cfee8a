/**
 * Text written one piece per element: the loops of `printOrg` and
 * `printCalendars` append one string for each element of a list to a buffer.
 */
module TextLines {
  /** The pieces `piece(x)` of the elements `x` of `xs`, one after the other. */
  function Concat<T>(xs: seq<T>, piece: T -> string): string
    decreases |xs|
  {
    if xs == [] then "" else Concat(xs[..|xs| - 1], piece) + piece(xs[|xs| - 1])
  }

  // Concatenation facts, stated once over abstract strings so that proofs about
  // text built from long literals can use them without unfolding the literals.

  /** Appending to a buffer piece by piece gives the same text as appending the pieces at once. */
  lemma Associative(a: string, b: string, c: string)
    ensures (a + b) + c == a + (b + c)
  {
  }

  /** Appending the empty string, or appending to it, changes nothing. */
  lemma EmptyNeutral(a: string)
    ensures "" + a == a && a + "" == a
  {
  }

  /** A text made of `p` and two more pieces starts with `p`. */
  lemma StartsWith3(p: string, a: string, b: string)
    ensures (p + a + b)[..|p|] == p
  {
    assert p + a + b == p + (a + b);
  }

  /** A text made of `p` and six more pieces starts with `p`. */
  lemma StartsWith7(p: string, a: string, b: string, c: string, d: string, e: string, f: string)
    ensures (p + a + b + c + d + e + f)[..|p|] == p
  {
    assert p + a + b + c + d + e + f == p + (a + b + c + d + e + f);
  }

  /** One more turn of a loop over `xs` appends the piece of `xs[k]`. */
  lemma ConcatStep<T>(xs: seq<T>, k: nat, piece: T -> string)
    requires k < |xs|
    ensures Concat(xs[..k + 1], piece) == Concat(xs[..k], piece) + piece(xs[k])
  {
    assert xs[..k + 1][..k] == xs[..k];
  }

  /** Appending one element appends its piece. */
  lemma ConcatSnoc<T>(xs: seq<T>, x: T, piece: T -> string)
    ensures Concat(xs + [x], piece) == Concat(xs, piece) + piece(x)
  {
    assert (xs + [x])[..|xs|] == xs;
  }

  /** The whole list, as the last prefix a loop reaches. */
  lemma ConcatAll<T>(xs: seq<T>, piece: T -> string)
    ensures Concat(xs[..|xs|], piece) == Concat(xs, piece)
  {
    assert xs[..|xs|] == xs;
  }

  /** The pieces of a list are those of its parts, one after the other. */
  lemma {:induction false} ConcatAppend<T>(xs: seq<T>, ys: seq<T>, piece: T -> string)
    ensures Concat(xs + ys, piece) == Concat(xs, piece) + Concat(ys, piece)
    decreases |ys|
  {
    if ys == [] {
      assert xs + ys == xs;
    } else {
      var ys' := ys[..|ys| - 1];
      var y := ys[|ys| - 1];
      assert (xs + ys)[..|xs + ys| - 1] == xs + ys';
      assert (xs + ys)[|xs + ys| - 1] == y;
      ConcatAppend(xs, ys', piece);
      Associative(Concat(xs, piece), Concat(ys', piece), piece(y));
    }
  }

  /** When no piece is empty, nothing is written exactly when the list is empty. */
  lemma {:induction false} ConcatEmpty<T>(xs: seq<T>, piece: T -> string)
    requires forall x :: piece(x) != ""
    ensures Concat(xs, piece) == "" <==> xs == []
    decreases |xs|
  {
    if xs != [] {
      ConcatEmpty(xs[..|xs| - 1], piece);
      assert piece(xs[|xs| - 1]) != "";
    }
  }
}
