/**
  The output stream the Quickbook emitters write to, and the small sequence
  vocabulary their specifications are written in: mapping, filtering,
  concatenating, and a join that is opened by a prefix.
*/
module OutputText {
  import opened BoostString

  /**
    A std::ostream reduced to the text written to it so far. `out << x` and
    `std::endl` (a newline; the flush is not modelled) append to `text`.
  */
  class OutStream {
    var text: string

    constructor ()
      ensures text == []
    {
      text := [];
    }

    /** `out << s`. */
    method Write(s: string)
      modifies this
      ensures text == old(text) + s
    {
      text := text + s;
    }
  }

  /** `f` applied to every element, in order. */
  function Map<T, U>(xs: seq<T>, f: T -> U): (r: seq<U>)
    ensures |r| == |xs|
  {
    seq(|xs|, k requires 0 <= k < |xs| => f(xs[k]))
  }

  lemma MapSnoc<T, U>(xs: seq<T>, x: T, f: T -> U)
    ensures Map(xs + [x], f) == Map(xs, f) + [f(x)]
  {
    assert Map(xs + [x], f)[|xs|] == f(x);
  }

  lemma MapSingle<T, U>(x: T, f: T -> U)
    ensures Map([x], f) == [f(x)]
  {
  }

  /** The elements that satisfy `keep`, in their order (a BOOST_FOREACH with an `if`). */
  function Filter<T>(xs: seq<T>, keep: T -> bool): (r: seq<T>)
    ensures |r| <= |xs|
  {
    if xs == [] then []
    else Filter(xs[..|xs| - 1], keep) + (if keep(xs[|xs| - 1]) then [xs[|xs| - 1]] else [])
  }

  /** One more element seen by the loop: it is kept or dropped. */
  lemma FilterStep<T>(xs: seq<T>, j: nat, keep: T -> bool)
    requires j < |xs|
    ensures Filter(xs[..j + 1], keep) == Filter(xs[..j], keep) + (if keep(xs[j]) then [xs[j]] else [])
  {
    assert xs[..j + 1][..j] == xs[..j];
  }

  /** The filter keeps exactly the elements that pass the test. */
  lemma {:induction false} FilterMembers<T>(xs: seq<T>, keep: T -> bool)
    ensures forall x :: x in Filter(xs, keep) <==> x in xs && keep(x)
    decreases |xs|
  {
    if xs != [] {
      var init := xs[..|xs| - 1];
      FilterMembers(init, keep);
      assert xs == init + [xs[|xs| - 1]];
    }
  }

  /** When no element passes the test, nothing is kept. */
  lemma {:induction false} FilterNone<T>(xs: seq<T>, keep: T -> bool)
    requires forall x <- xs :: !keep(x)
    ensures Filter(xs, keep) == []
    decreases |xs|
  {
    if xs != [] {
      FilterNone(xs[..|xs| - 1], keep);
    }
  }

  lemma FilterSnoc<T>(xs: seq<T>, x: T, keep: T -> bool)
    ensures Filter(xs + [x], keep) == Filter(xs, keep) + (if keep(x) then [x] else [])
  {
    assert (xs + [x])[..|xs|] == xs;
  }

  /** Filtering twice with the same test filters once. */
  lemma {:induction false} FilterIdempotent<T>(xs: seq<T>, keep: T -> bool)
    ensures Filter(Filter(xs, keep), keep) == Filter(xs, keep)
    decreases |xs|
  {
    if xs != [] {
      var init := xs[..|xs| - 1];
      var last := xs[|xs| - 1];
      FilterIdempotent(init, keep);
      if keep(last) {
        assert Filter(xs, keep) == Filter(init, keep) + [last];
        FilterSnoc(Filter(init, keep), last, keep);
      } else {
        assert Filter(xs, keep) == Filter(init, keep);
      }
    }
  }

  /** An element that fails the test leaves the filtered prefix as it was. */
  lemma FilterSkip<T>(xs: seq<T>, j: nat, keep: T -> bool)
    requires j < |xs| && !keep(xs[j])
    ensures Filter(xs[..j + 1], keep) == Filter(xs[..j], keep)
  {
    FilterStep(xs, j, keep);
  }

  lemma AppendAssoc<T>(a: seq<T>, b: seq<T>, c: seq<T>)
    ensures a + (b + c) == a + b + c
  {
  }

  /** Three writes in a row append their concatenation. */
  lemma Append3(t: string, a: string, b: string, c: string)
    ensures t + a + b + c == t + (a + b + c)
  {
    AppendAssoc(t, a, b);
    AppendAssoc(t, a + b, c);
  }

  lemma Append4(t: string, a: string, b: string, c: string, d: string)
    ensures t + a + b + c + d == t + (a + b + c + d)
  {
    Append3(t, a, b, c);
    AppendAssoc(t, a + b + c, d);
  }

  lemma Append5(t: string, a: string, b: string, c: string, d: string, e: string)
    ensures t + a + b + c + d + e == t + (a + b + c + d + e)
  {
    Append4(t, a, b, c, d);
    AppendAssoc(t, a + b + c + d, e);
  }

  lemma Append6(t: string, a: string, b: string, c: string, d: string, e: string, g: string)
    ensures t + a + b + c + d + e + g == t + (a + b + c + d + e + g)
  {
    Append5(t, a, b, c, d, e);
    AppendAssoc(t, a + b + c + d + e, g);
  }

  /** The pieces written one after the other. */
  function Concat(ss: seq<string>): string {
    if ss == [] then [] else Concat(ss[..|ss| - 1]) + ss[|ss| - 1]
  }

  lemma ConcatStep(ss: seq<string>, j: nat)
    requires j < |ss|
    ensures Concat(ss[..j + 1]) == Concat(ss[..j]) + ss[j]
  {
    assert ss[..j + 1][..j] == ss[..j];
  }

  lemma ConcatSingle(s: string)
    ensures Concat([s]) == s
  {
    assert [s][..0] == [];
  }

  lemma ConcatSnoc(ss: seq<string>, s: string)
    ensures Concat(ss + [s]) == Concat(ss) + s
  {
    assert (ss + [s])[..|ss|] == ss;
  }

  /** Concatenated pieces are empty exactly when every piece is. */
  lemma {:induction false} ConcatEmpty(ss: seq<string>)
    ensures Concat(ss) == [] <==> forall k :: 0 <= k < |ss| ==> ss[k] == []
    decreases |ss|
  {
    if ss != [] {
      var init := ss[..|ss| - 1];
      ConcatEmpty(init);
      assert forall k :: 0 <= k < |init| ==> init[k] == ss[k];
    }
  }

  /** The pieces `f(xs[i], i)` for the first n elements: a loop that also uses the element's index. */
  function Indexed<T>(xs: seq<T>, n: nat, f: (T, nat) -> string): (r: seq<string>)
    requires n <= |xs|
    ensures |r| == n
  {
    if n == 0 then [] else Indexed(xs, n - 1, f) + [f(xs[n - 1], n - 1)]
  }

  /** Piece i is the one of element i, numbered by its position. */
  lemma {:induction false} IndexedAt<T>(xs: seq<T>, n: nat, f: (T, nat) -> string)
    requires n <= |xs|
    ensures forall i :: 0 <= i < n ==> Indexed(xs, n, f)[i] == f(xs[i], i)
  {
    if n > 0 {
      IndexedAt(xs, n - 1, f);
    }
  }

  /** Piece i, on its own. */
  lemma IndexedPiece<T>(xs: seq<T>, n: nat, f: (T, nat) -> string, i: nat)
    requires i < n <= |xs|
    ensures Indexed(xs, n, f)[i] == f(xs[i], i)
  {
    IndexedAt(xs, n, f);
  }

  /**
    What a `first`-flag loop has written so far: nothing before the first
    part, then `opening` and the parts with `sep` between neighbours.
  */
  function Opened(parts: seq<string>, opening: string, sep: string): string {
    if parts == [] then [] else opening + Join(parts, sep)
  }

  /**
    One iteration of such a loop: writing `opening` (first part) or `sep`
    (later parts) followed by the part keeps the text in that shape.
  */
  lemma JoinAppend(parts: seq<string>, x: string, opening: string, sep: string,
                   start: string, before: string, piece: string, after: string)
    requires before == start + Opened(parts, opening, sep)
    requires piece == (if parts == [] then opening else sep) + x
    requires after == before + piece
    ensures after == start + Opened(parts + [x], opening, sep)
  {
    if parts == [] {
      assert Join([x], sep) == x;
    } else {
      JoinSnoc(parts, x, sep);
    }
  }

  /** One iteration of a loop that writes every part: the next part joins the text written so far. */
  lemma IndexedJoinStep(items: seq<string>, j: nat, opening: string, sep: string,
                        start: string, before: string, piece: string, after: string)
    requires j < |items|
    requires before == start + Opened(items[..j], opening, sep)
    requires piece == (if j == 0 then opening else sep) + items[j]
    requires after == before + piece
    ensures after == start + Opened(items[..j + 1], opening, sep)
  {
    assert items[..j + 1] == items[..j] + [items[j]];
    JoinAppend(items[..j], items[j], opening, sep, start, before, piece, after);
  }

  /** One iteration of a loop that writes only the elements passing a test, with a `first` flag. */
  lemma FilteredJoinStep<T>(xs: seq<T>, j: nat, keep: T -> bool, f: T -> string, opening: string, sep: string,
                            start: string, before: string, piece: string, after: string)
    requires j < |xs| && keep(xs[j])
    requires before == start + Opened(Map(Filter(xs[..j], keep), f), opening, sep)
    requires piece == (if Filter(xs[..j], keep) == [] then opening else sep) + f(xs[j])
    requires after == before + piece
    ensures Filter(xs[..j + 1], keep) == Filter(xs[..j], keep) + [xs[j]]
    ensures after == start + Opened(Map(Filter(xs[..j + 1], keep), f), opening, sep)
  {
    var kept := Filter(xs[..j], keep);
    FilterStep(xs, j, keep);
    MapSnoc(kept, xs[j], f);
    JoinAppend(Map(kept, f), f(xs[j]), opening, sep, start, before, piece, after);
  }

  /** One iteration of a loop that writes one piece per element. */
  lemma ConcatWrite(ss: seq<string>, j: nat, start: string, before: string, after: string)
    requires j < |ss|
    requires before == start + Concat(ss[..j])
    requires after == before + ss[j]
    ensures after == start + Concat(ss[..j + 1])
  {
    ConcatStep(ss, j);
  }

  /** One iteration of a loop that writes a piece for each element passing a test. */
  lemma FilteredConcatWrite<T>(xs: seq<T>, j: nat, keep: T -> bool, f: T -> string,
                               start: string, before: string, after: string)
    requires j < |xs| && keep(xs[j])
    requires before == start + Concat(Map(Filter(xs[..j], keep), f))
    requires after == before + f(xs[j])
    ensures Filter(xs[..j + 1], keep) == Filter(xs[..j], keep) + [xs[j]]
    ensures after == start + Concat(Map(Filter(xs[..j + 1], keep), f))
  {
    var kept := Filter(xs[..j], keep);
    FilterStep(xs, j, keep);
    MapSnoc(kept, xs[j], f);
    ConcatSnoc(Map(kept, f), f(xs[j]));
  }
}
