/** `ORDER BY`: the elements of a finite set, each once, in increasing order. */
module Ordering {

  ghost predicate TotalOrder<T(!new)>(le: (T, T) -> bool) {
    && (forall x, y :: le(x, y) || le(y, x))
    && (forall x, y :: le(x, y) && le(y, x) ==> x == y)
    && (forall x, y, z :: le(x, y) && le(y, z) ==> le(x, z))
  }

  lemma {:induction false} LeastExists<T(!new)>(s: set<T>, le: (T, T) -> bool) returns (m: T)
    requires TotalOrder(le) && s != {}
    ensures m in s && forall y :: y in s ==> le(m, y)
    decreases |s|
  {
    m :| m in s;
    if s != {m} {
      var rest := s - {m};
      assert |rest| < |s|;
      var least := LeastExists(rest, le);
      if !le(m, least) { m := least; }
    }
  }

  function Sorted<T(==,!new)>(s: set<T>, le: (T, T) -> bool): (r: seq<T>)
    requires TotalOrder(le)
    ensures forall x :: x in r <==> x in s
    ensures Increasing(r, le)
    decreases |s|
  {
    if s == {} then []
    else
      assert exists m :: m in s && forall y :: y in s ==> le(m, y) by {
        var m := LeastExists(s, le);
      }
      var m :| m in s && forall y :: y in s ==> le(m, y);
      assert |s - {m}| < |s|;
      [m] + Sorted(s - {m}, le)
  }

  /** Strictly increasing, and so without repetition. */
  predicate Increasing<T(==)>(r: seq<T>, le: (T, T) -> bool) {
    forall i, j :: 0 <= i < j < |r| ==> le(r[i], r[j]) && r[i] != r[j]
  }

  lemma NextIsGreater<T(!new)>(s: set<T>, le: (T, T) -> bool, i: nat)
    requires TotalOrder(le) && 0 < i < |Sorted(s, le)|
    ensures le(Sorted(s, le)[i - 1], Sorted(s, le)[i]) && Sorted(s, le)[i - 1] != Sorted(s, le)[i]
  {
  }

  predicate IntLe(x: int, y: int) { x <= y }

  /** Python compares strings code point by code point. */
  predicate StringLe(x: string, y: string) {
    x == [] || (y != [] && (x[0] < y[0] || (x[0] == y[0] && StringLe(x[1..], y[1..]))))
  }

  type Pair = (string, string)

  predicate PairLe(x: Pair, y: Pair) {
    if x.0 == y.0 then StringLe(x.1, y.1) else StringLe(x.0, y.0)
  }

  lemma IntOrder()
    ensures TotalOrder(IntLe)
  {
  }

  lemma {:induction false} StringTotal(x: string, y: string)
    ensures StringLe(x, y) || StringLe(y, x)
  {
    if x != [] && y != [] { StringTotal(x[1..], y[1..]); }
  }

  lemma {:induction false} StringAntisymmetric(x: string, y: string)
    requires StringLe(x, y) && StringLe(y, x)
    ensures x == y
  {
    if x != [] {
      StringAntisymmetric(x[1..], y[1..]);
      assert x == [x[0]] + x[1..] && y == [y[0]] + y[1..];
    }
  }

  lemma {:induction false} StringTransitive(x: string, y: string, z: string)
    requires StringLe(x, y) && StringLe(y, z)
    ensures StringLe(x, z)
  {
    if x != [] && x[0] == y[0] == z[0] { StringTransitive(x[1..], y[1..], z[1..]); }
  }

  lemma StringOrder()
    ensures TotalOrder(StringLe)
  {
    forall x, y ensures StringLe(x, y) || StringLe(y, x) { StringTotal(x, y); }
    forall x, y | StringLe(x, y) && StringLe(y, x) ensures x == y { StringAntisymmetric(x, y); }
    forall x, y, z | StringLe(x, y) && StringLe(y, z) ensures StringLe(x, z) { StringTransitive(x, y, z); }
  }

  lemma PairOrder()
    ensures TotalOrder(PairLe)
  {
    StringOrder();
    forall x: Pair, y: Pair ensures PairLe(x, y) || PairLe(y, x) {}
    forall x: Pair, y: Pair | PairLe(x, y) && PairLe(y, x) ensures x == y {}
    forall x: Pair, y: Pair, z: Pair | PairLe(x, y) && PairLe(y, z) ensures PairLe(x, z) {}
  }
}
