/** The lexicographic order on sequences, as Python compares strings and score tuples. */
module Lexicographic {

  predicate Less<T(==)>(lt: (T, T) -> bool, a: seq<T>, b: seq<T>) {
    if b == [] then false
    else if a == [] then true
    else lt(a[0], b[0]) || (a[0] == b[0] && Less(lt, a[1..], b[1..]))
  }

  /** A strict total order on the elements. */
  ghost predicate StrictOrder<T(!new)>(lt: (T, T) -> bool) {
    && (forall x :: !lt(x, x))
    && (forall x, y :: x == y || lt(x, y) || lt(y, x))
    && (forall x, y, z :: lt(x, y) && lt(y, z) ==> lt(x, z))
  }

  lemma {:induction false} Total<T(!new)>(lt: (T, T) -> bool, a: seq<T>, b: seq<T>)
    requires StrictOrder(lt)
    ensures a == b || Less(lt, a, b) || Less(lt, b, a)
  {
    if a != [] && b != [] && a[0] == b[0] {
      Total(lt, a[1..], b[1..]);
      if a[1..] == b[1..] {
        assert a == [a[0]] + a[1..] && b == [b[0]] + b[1..];
      }
    }
  }

  lemma {:induction false} Transitive<T(!new)>(lt: (T, T) -> bool, a: seq<T>, b: seq<T>, c: seq<T>)
    requires StrictOrder(lt) && Less(lt, a, b) && Less(lt, b, c)
    ensures Less(lt, a, c)
  {
    if a != [] && a[0] == b[0] && b[0] == c[0] {
      Transitive(lt, a[1..], b[1..], c[1..]);
    }
  }

  lemma {:induction false} Irreflexive<T(!new)>(lt: (T, T) -> bool, a: seq<T>)
    requires StrictOrder(lt)
    ensures !Less(lt, a, a)
  {
    if a != [] {
      Irreflexive(lt, a[1..]);
    }
  }
}
