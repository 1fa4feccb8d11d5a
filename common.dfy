/** Option and Result values, used where the source returns None or raises. */
module Common {

  datatype Option<+T> = None | Some(value: T)

  datatype Result<+T, +E> = Ok(value: T) | Err(error: E)

  /** Appends the entries of `items` to `stack` one at a time. */
  method PushAll<T>(stack: seq<T>, items: seq<T>) returns (r: seq<T>)
    ensures r == stack + items
  {
    r := stack;
    for j := 0 to |items|
      invariant r == stack + items[..j]
    {
      assert items[..j + 1] == items[..j] + [items[j]];
      r := r + [items[j]];
    }
    assert items[..|items|] == items;
  }

  lemma AppendAssoc<T>(a: seq<T>, b: seq<T>, c: seq<T>)
    ensures (a + b) + c == a + (b + c)
  {
  }

  lemma UnionShuffle<T>(a: set<T>, b: set<T>, c: set<T>)
    ensures a + (b + c) == b + (a + c)
  {
  }

  /** The list reversed. */
  function Reversed<T>(s: seq<T>): (r: seq<T>)
    ensures |r| == |s|
    ensures forall i :: 0 <= i < |s| ==> r[i] == s[|s| - 1 - i]
    decreases |s|
  {
    if s == [] then [] else [s[|s| - 1]] + Reversed(s[..|s| - 1])
  }

  /** Two lists that are permutations of each other have the same elements. */
  lemma SameElements<T>(a: seq<T>, b: seq<T>)
    requires multiset(a) == multiset(b)
    ensures forall t :: t in a <==> t in b
  {
    forall t ensures t in a <==> t in b {
      assert t in a <==> t in multiset(a);
      assert t in b <==> t in multiset(b);
    }
  }

  /** Extending a prefix of `b` by one entry after `a`. */
  lemma PrefixStep<T>(a: seq<T>, b: seq<T>, j: int)
    requires 0 <= j < |b|
    ensures a + b[..j + 1] == (a + b[..j]) + [b[j]]
  {
    assert b[..j + 1] == b[..j] + [b[j]];
  }

  /** Two maps with the same keys and the same value at each key are equal. */
  lemma SameMap<K, V>(a: map<K, V>, b: map<K, V>)
    requires a.Keys == b.Keys
    requires forall k :: k in a ==> a[k] == b[k]
    ensures a == b
  {
  }

  /** Moving one element from the unvisited to the visited part of a set. */
  lemma MoveElement<T>(seen: set<T>, rest: set<T>, x: T)
    requires x in rest && seen !! rest
    ensures (seen + {x}) !! (rest - {x})
    ensures (seen + {x}) + (rest - {x}) == seen + rest
    ensures |rest - {x}| < |rest|
    ensures x !in seen
  {
  }

  /** The keys of the elements of `s` that `keep` accepts. */
  function KeysWhere<T, K>(s: set<T>, keep: T -> bool, key: T -> K): set<K> {
    set x | x in s && keep(x) :: key(x)
  }

  /** The keys that an accepted element of `s` shares with another accepted element. */
  function SharedKeys<T, K>(s: set<T>, keep: T -> bool, key: T -> K): set<K> {
    set x | x in s && keep(x) && key(x) in KeysWhere(s - {x}, keep, key) :: key(x)
  }

  lemma KeysWhereAdd<T, K>(s: set<T>, x: T, keep: T -> bool, key: T -> K)
    ensures KeysWhere(s + {x}, keep, key) == KeysWhere(s, keep, key) + (if keep(x) then {key(x)} else {})
  {
  }

  /**
   * Accepting one more element, not yet seen: its key becomes shared exactly
   * when an element already seen has it.
   */
  lemma SharedKeysAdd<T, K>(s: set<T>, x: T, keep: T -> bool, key: T -> K)
    requires x !in s
    ensures SharedKeys(s + {x}, keep, key) ==
              SharedKeys(s, keep, key) + (if keep(x) && key(x) in KeysWhere(s, keep, key) then {key(x)} else {})
  {
    var s' := s + {x};
    var grown := if keep(x) && key(x) in KeysWhere(s, keep, key) then {key(x)} else {};
    assert s' - {x} == s;
    forall a | a in s ensures KeysWhere(s' - {a}, keep, key) == KeysWhere(s - {a}, keep, key) + (if keep(x) then {key(x)} else {}) {
      assert s' - {a} == (s - {a}) + {x};
      KeysWhereAdd(s - {a}, x, keep, key);
    }
    forall n | n in SharedKeys(s', keep, key) ensures n in SharedKeys(s, keep, key) + grown {
      var a :| a in s' && keep(a) && key(a) in KeysWhere(s' - {a}, keep, key) && n == key(a);
      if a != x {
        assert a in s && key(a) == n;
        assert n in KeysWhere(s - {a}, keep, key) || (keep(x) && key(x) == n);
        if n !in KeysWhere(s - {a}, keep, key) {
          assert n in KeysWhere(s, keep, key);
        }
      }
    }
    forall n | n in SharedKeys(s, keep, key) + grown ensures n in SharedKeys(s', keep, key) {
      if n in SharedKeys(s, keep, key) {
        var a :| a in s && keep(a) && key(a) in KeysWhere(s - {a}, keep, key) && n == key(a);
        assert a in s';
      } else {
        assert x in s';
      }
    }
  }

  /** The elements of `s` that `keep` accepts. */
  function Filter<T>(s: set<T>, keep: T -> bool): set<T> {
    set x | x in s && keep(x)
  }

  lemma FilterAdd<T>(s: set<T>, x: T, keep: T -> bool)
    ensures Filter(s + {x}, keep) == Filter(s, keep) + (if keep(x) then {x} else {})
  {
  }
}
