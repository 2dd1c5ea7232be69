/**
 * The values the list pages sort by, and the order `<` puts on them: text
 * compares code unit by code unit, numbers by value.
 */
module SortKeys {
  import opened Js
  import opened ListOps

  datatype Key = Text(s: string) | Number(n: int)

  /** `a < b` on two keys of the same kind; keys of different kinds never meet in one sort. */
  predicate KeyLess(a: Key, b: Key) {
    if a.Text? && b.Text? then LexLess(a.s, b.s)
    else if a.Number? && b.Number? then a.n < b.n
    else false
  }

  /** Every item's key under `key` is of the same kind. */
  ghost predicate OneKind<T(!new)>(key: T -> Key) {
    forall a, b :: key(a).Text? == key(b).Text?
  }

  /** Keys of one kind are totally ordered by `KeyLess`: equal, or one before the other. */
  lemma KeyLessTotal(a: Key, b: Key)
    requires a.Text? == b.Text?
    ensures a == b || KeyLess(a, b) || KeyLess(b, a)
  {
    if a.Text? {
      LexLessTotal(a.s, b.s);
    }
  }

  lemma KeyLessTransitive(a: Key, b: Key, c: Key)
    requires KeyLess(a, b) && KeyLess(b, c)
    ensures KeyLess(a, c)
  {
    if a.Text? {
      LexLessTransitive(a.s, b.s, c.s);
    }
  }

  lemma KeyLessIrreflexive(a: Key)
    ensures !KeyLess(a, a)
  {
    if a.Text? {
      LexLessIrreflexive(a.s);
    }
  }

  /** "`a` sorts before `b`": the key of `a` is less than the key of `b`. */
  function ByKey<T>(key: T -> Key): (T, T) -> bool {
    (a: T, b: T) => KeyLess(key(a), key(b))
  }

  /** Comparing items by a key of one kind is a strict weak order, so the page's comparator is consistent. */
  lemma ByKeyStrictWeak<T(!new)>(key: T -> Key)
    requires OneKind(key)
    ensures StrictWeakOrder(ByKey(key))
  {
    var less := ByKey(key);
    forall a ensures !less(a, a) {
      KeyLessIrreflexive(key(a));
    }
    forall a, b, c | less(a, b) && less(b, c) ensures less(a, c) {
      KeyLessTransitive(key(a), key(b), key(c));
    }
    forall a, b, c | less(a, b) ensures less(a, c) || less(c, b) {
      KeyLessTotal(key(a), key(c));
      if key(a) == key(c) {
      } else if KeyLess(key(c), key(a)) {
        KeyLessTransitive(key(c), key(a), key(b));
      }
    }
  }

  /**
   * Sorting with the `-1`/`1`/`0` comparator built on a key of one kind gives
   * a permutation of the input, ordered by that key in the chosen direction.
   */
  lemma SortByKey<T(!new)>(s: seq<T>, key: T -> Key, descending: bool)
    requires OneKind(key)
    ensures var r := Sort(s, CmpByLess(ByKey(key), descending));
      && multiset(r) == multiset(s)
      && (forall i, j :: 0 <= i < j < |r| ==>
            if descending then !KeyLess(key(r[i]), key(r[j])) else !KeyLess(key(r[j]), key(r[i])))
  {
    var less := ByKey(key);
    var cmp := CmpByLess(less, descending);
    ByKeyStrictWeak(key);
    CmpByLessConsistent(less, descending);
    SortSorted(s, cmp);
    var r := Sort(s, cmp);
    forall i, j | 0 <= i < j < |r|
      ensures if descending then !KeyLess(key(r[i]), key(r[j])) else !KeyLess(key(r[j]), key(r[i]))
    {
      assert cmp(r[i], r[j]) <= 0;
    }
  }

  /** A text as a sort key. */
  function AsText(s: string): Key {
    Text(s)
  }

  /**
   * `Array.from(set).sort()`: the default sort orders text by code units, so
   * a duplicate-free list comes out strictly increasing.
   */
  lemma SortDistinctStrings(s: seq<string>)
    requires Distinct(s)
    ensures var r := Sort(s, CmpByLess(ByKey(AsText), false));
      && multiset(r) == multiset(s)
      && (forall i, j :: 0 <= i < j < |r| ==> LexLess(r[i], r[j]))
  {
    var r := Sort(s, CmpByLess(ByKey(AsText), false));
    SortByKey(s, AsText, false);
    DistinctPermutation(s, r);
    forall i, j | 0 <= i < j < |r| ensures LexLess(r[i], r[j]) {
      assert !KeyLess(AsText(r[j]), AsText(r[i]));
      LexLessTotal(r[i], r[j]);
    }
  }
}
