/** Comparator laws and the stable sort behind `Array.prototype.sort`.

    A comparator returns a negative, zero or positive number, as the
    callbacks handed to `sort` do. The laws below make it a total
    preorder; `||` between two comparisons (the source's tie-break idiom)
    and multiplying by a direction factor of 1 or -1 both preserve them. */
module Ordering {

  function Sign(x: int): int
  {
    if x < 0 then -1 else if x > 0 then 1 else 0
  }

  /** Swapping the arguments flips the sign of the answer. */
  ghost predicate Antisymmetric<T(!new)>(cmp: (T, T) -> int)
  {
    forall a, b :: Sign(cmp(a, b)) == -Sign(cmp(b, a))
  }

  /** "Not after" is transitive. */
  ghost predicate Transitive<T(!new)>(cmp: (T, T) -> int)
  {
    forall a, b, c :: cmp(a, b) <= 0 && cmp(b, c) <= 0 ==> cmp(a, c) <= 0
  }

  ghost predicate TotalPreorder<T(!new)>(cmp: (T, T) -> int)
  {
    Antisymmetric(cmp) && Transitive(cmp)
  }

  /** `first(a, b) || second(a, b)`: the second comparison decides only
      when the first finds a tie. */
  function ThenBy<T>(first: (T, T) -> int, second: (T, T) -> int): (T, T) -> int
  {
    (a: T, b: T) => if first(a, b) != 0 then first(a, b) else second(a, b)
  }

  /** `cmp(a, b) * factor`. */
  function Scaled<T>(cmp: (T, T) -> int, factor: int): (T, T) -> int
  {
    (a: T, b: T) => cmp(a, b) * factor
  }

  /** Compares by a key: `cmp(key(a), key(b))`. */
  function On<T, K>(cmp: (K, K) -> int, key: T -> K): (T, T) -> int
  {
    (a: T, b: T) => cmp(key(a), key(b))
  }

  /** Integer difference `a - b`, the comparator behind numeric sorts. */
  const Difference := (a: int, b: int) => a - b

  lemma ThenByPreorder<T(!new)>(first: (T, T) -> int, second: (T, T) -> int)
    requires TotalPreorder(first) && TotalPreorder(second)
    ensures TotalPreorder(ThenBy(first, second))
  {
    var c := ThenBy(first, second);
    forall a, b, d | c(a, b) <= 0 && c(b, d) <= 0
      ensures c(a, d) <= 0
    {
      assert first(a, b) <= 0 && first(b, d) <= 0;
      if first(a, d) == 0 {
        assert first(d, a) == 0;
        assert first(b, a) <= 0;
        assert first(a, b) == 0 && first(b, d) == 0;
      }
    }
  }

  lemma ScaledPreorder<T(!new)>(cmp: (T, T) -> int, factor: int)
    requires TotalPreorder(cmp)
    requires factor == 1 || factor == -1
    ensures TotalPreorder(Scaled(cmp, factor))
  {
    var c := Scaled(cmp, factor);
    forall a, b, d | c(a, b) <= 0 && c(b, d) <= 0
      ensures c(a, d) <= 0
    {
      if factor == -1 {
        assert cmp(d, b) <= 0 && cmp(b, a) <= 0;
        assert cmp(d, a) <= 0;
      }
    }
  }

  lemma OnPreorder<T(!new), K(!new)>(cmp: (K, K) -> int, key: T -> K)
    requires TotalPreorder(cmp)
    ensures TotalPreorder(On(cmp, key))
  {
    var c := On(cmp, key);
    forall a, b, d | c(a, b) <= 0 && c(b, d) <= 0
      ensures c(a, d) <= 0
    {
      assert cmp(key(a), key(b)) <= 0 && cmp(key(b), key(d)) <= 0;
    }
  }

  lemma DifferencePreorder()
    ensures TotalPreorder(Difference)
  {
  }

  /** A comparator that agrees in sign with a total preorder is one too. */
  lemma SameSignPreorder<T(!new)>(cmp: (T, T) -> int, model: (T, T) -> int)
    requires TotalPreorder(model)
    requires forall a, b :: Sign(cmp(a, b)) == Sign(model(a, b))
    ensures TotalPreorder(cmp)
  {
    forall a, b, c | cmp(a, b) <= 0 && cmp(b, c) <= 0
      ensures cmp(a, c) <= 0
    {
      assert Sign(cmp(a, b)) == Sign(model(a, b)) && Sign(cmp(b, c)) == Sign(model(b, c));
      assert Sign(cmp(a, c)) == Sign(model(a, c));
    }
  }

  ghost predicate SortedBy<T>(cmp: (T, T) -> int, s: seq<T>)
  {
    forall i, j :: 0 <= i < j < |s| ==> cmp(s[i], s[j]) <= 0
  }

  /** Places `x` in front of the first element it does not come after. */
  function Insert<T>(cmp: (T, T) -> int, x: T, s: seq<T>): (r: seq<T>)
    ensures multiset(r) == multiset(s) + multiset{x}
    ensures |r| == |s| + 1
  {
    if |s| == 0 || cmp(x, s[0]) <= 0 then [x] + s
    else
      assert s == [s[0]] + s[1..];
      [s[0]] + Insert(cmp, x, s[1..])
  }

  /** Stable insertion sort: elements that compare equal keep their input
      order, as in `Array.prototype.sort`. */
  function Sort<T>(cmp: (T, T) -> int, s: seq<T>): (r: seq<T>)
    ensures multiset(r) == multiset(s)
    ensures |r| == |s|
  {
    if |s| == 0 then []
    else
      assert s == [s[0]] + s[1..];
      Insert(cmp, s[0], Sort(cmp, s[1..]))
  }

  /** Every element of `s` comes no earlier than `y`. */
  ghost predicate NoneBefore<T>(cmp: (T, T) -> int, y: T, s: seq<T>)
  {
    forall j :: 0 <= j < |s| ==> cmp(y, s[j]) <= 0
  }

  lemma {:induction false} InsertKeepsBound<T(!new)>(cmp: (T, T) -> int, y: T, x: T, s: seq<T>)
    requires NoneBefore(cmp, y, s) && cmp(y, x) <= 0
    ensures NoneBefore(cmp, y, Insert(cmp, x, s))
  {
    if |s| > 0 && cmp(x, s[0]) > 0 {
      InsertKeepsBound(cmp, y, x, s[1..]);
    }
  }

  lemma SortedCons<T(!new)>(cmp: (T, T) -> int, y: T, s: seq<T>)
    requires NoneBefore(cmp, y, s) && SortedBy(cmp, s)
    ensures SortedBy(cmp, [y] + s)
  {
    var r := [y] + s;
    forall i, j | 0 <= i < j < |r|
      ensures cmp(r[i], r[j]) <= 0
    {
      if i > 0 {
        assert r[i] == s[i - 1] && r[j] == s[j - 1];
      }
    }
  }

  lemma {:induction false} InsertSorted<T(!new)>(cmp: (T, T) -> int, x: T, s: seq<T>)
    requires TotalPreorder(cmp)
    requires SortedBy(cmp, s)
    ensures SortedBy(cmp, Insert(cmp, x, s))
  {
    if |s| == 0 || cmp(x, s[0]) <= 0 {
      forall j | 0 <= j < |s|
        ensures cmp(x, s[j]) <= 0
      {
        if j > 0 {
          assert cmp(s[0], s[j]) <= 0;
        }
      }
      SortedCons(cmp, x, s);
    } else {
      assert SortedBy(cmp, s[1..]) by {
        forall i, j | 0 <= i < j < |s[1..]|
          ensures cmp(s[1..][i], s[1..][j]) <= 0
        {
          assert s[1..][i] == s[i + 1] && s[1..][j] == s[j + 1];
        }
      }
      InsertSorted(cmp, x, s[1..]);
      assert cmp(s[0], x) <= 0;
      assert NoneBefore(cmp, s[0], s[1..]) by {
        forall j | 0 <= j < |s[1..]|
          ensures cmp(s[0], s[1..][j]) <= 0
        {
          assert s[1..][j] == s[j + 1];
        }
      }
      InsertKeepsBound(cmp, s[0], x, s[1..]);
      SortedCons(cmp, s[0], Insert(cmp, x, s[1..]));
    }
  }

  lemma {:induction false} SortSorted<T(!new)>(cmp: (T, T) -> int, s: seq<T>)
    requires TotalPreorder(cmp)
    ensures SortedBy(cmp, Sort(cmp, s))
  {
    if |s| > 0 {
      SortSorted(cmp, s[1..]);
      InsertSorted(cmp, s[0], Sort(cmp, s[1..]));
    }
  }

  /** The elements of `s` that tie with `p`, in their order in `s`. */
  function Ties<T>(cmp: (T, T) -> int, p: T, s: seq<T>): seq<T>
  {
    if |s| == 0 then []
    else (if cmp(s[0], p) == 0 then [s[0]] else []) + Ties(cmp, p, s[1..])
  }

  /** Two elements that tie with the same `p` tie with each other. */
  lemma SameTieClass<T(!new)>(cmp: (T, T) -> int, p: T, a: T, b: T)
    requires TotalPreorder(cmp)
    ensures cmp(a, p) == 0 && cmp(b, p) == 0 ==> cmp(a, b) <= 0
  {
    if cmp(a, p) == 0 && cmp(b, p) == 0 {
      assert Sign(cmp(p, b)) == -Sign(cmp(b, p));
    }
  }

  lemma TiesCons<T>(cmp: (T, T) -> int, p: T, y: T, s: seq<T>)
    ensures Ties(cmp, p, [y] + s) == (if cmp(y, p) == 0 then [y] else []) + Ties(cmp, p, s)
  {
  }

  /** Under a total preorder an element that ties with `p` never comes
      after one that does not: inserting `x` adds it at the front of its
      tie class and leaves every tie class otherwise as it was. */
  lemma {:induction false} InsertTies<T(!new)>(cmp: (T, T) -> int, p: T, x: T, s: seq<T>)
    requires TotalPreorder(cmp)
    ensures Ties(cmp, p, Insert(cmp, x, s)) == (if cmp(x, p) == 0 then [x] else []) + Ties(cmp, p, s)
  {
    if |s| == 0 || cmp(x, s[0]) <= 0 {
      TiesCons(cmp, p, x, s);
    } else {
      var t := s[1..];
      assert s == [s[0]] + t;
      InsertTies(cmp, p, x, t);
      TiesCons(cmp, p, s[0], Insert(cmp, x, t));
      TiesCons(cmp, p, s[0], t);
      SameTieClass(cmp, p, x, s[0]);
    }
  }

  /** `Sort` is stable: for every `p`, the elements that tie with `p`
      come out in the order they went in. */
  lemma {:induction false} SortStable<T(!new)>(cmp: (T, T) -> int, p: T, s: seq<T>)
    requires TotalPreorder(cmp)
    ensures Ties(cmp, p, Sort(cmp, s)) == Ties(cmp, p, s)
  {
    if |s| > 0 {
      SortStable(cmp, p, s[1..]);
      InsertTies(cmp, p, s[0], Sort(cmp, s[1..]));
    }
  }
}
