/** Dictionaries and sets filled one entry at a time, as a loop over a list does. */
module Dictionaries {
  /** `m` with the entries `key(i) := value(i)` added for `i` from 0 to `n - 1`, in order. */
  ghost function AddEach(m: map<string, string>, n: nat, key: nat -> string, value: nat -> string): map<string, string>
  {
    if n == 0 then m else AddEach(m, n - 1, key, value)[key(n - 1) := value(n - 1)]
  }

  /** The keys `key(0)`, ..., `key(n - 1)`. */
  ghost function KeySet(n: nat, key: nat -> string): set<string>
  {
    if n == 0 then {} else KeySet(n - 1, key) + {key(n - 1)}
  }

  /** The keys after the additions are those of `m` and the added ones. */
  lemma {:induction false} AddEachKeys(m: map<string, string>, n: nat, key: nat -> string, value: nat -> string)
    ensures forall k :: k in AddEach(m, n, key, value) <==> k in m || k in KeySet(n, key)
  {
    if n > 0 {
      AddEachKeys(m, n - 1, key, value);
    }
  }

  /** The added keys are the first `n` elements of the sequence of keys. */
  lemma {:induction false} KeySetSpec(n: nat, key: nat -> string, keys: seq<string>)
    requires n <= |keys| && forall i :: 0 <= i < n ==> keys[i] == key(i)
    ensures forall k :: k in KeySet(n, key) <==> k in keys[..n]
  {
    if n > 0 {
      KeySetSpec(n - 1, key, keys);
      assert keys[..n] == keys[..n - 1] + [keys[n - 1]];
    } else {
      assert keys[..n] == [];
    }
  }

  /** Additions whose values agree on the first `n` positions give the same dictionary. */
  lemma {:induction false} AddEachAgree(m: map<string, string>, n: nat, key: nat -> string,
                                        v1: nat -> string, v2: nat -> string)
    requires forall i: nat :: i < n ==> v1(i) == v2(i)
    ensures AddEach(m, n, key, v1) == AddEach(m, n, key, v2)
  {
    if n > 0 {
      AddEachAgree(m, n - 1, key, v1, v2);
    }
  }

  /** The union of `part(0)`, ..., `part(n - 1)`. */
  ghost function UnionEach<T>(n: nat, part: nat -> set<T>): set<T>
  {
    if n == 0 then {} else UnionEach(n - 1, part) + part(n - 1)
  }

  /** Each of the first `n` parts is inside their union. */
  lemma {:induction false} UnionEachHas<T>(n: nat, part: nat -> set<T>, i: nat)
    requires i < n
    ensures part(i) <= UnionEach(n, part)
  {
    if i < n - 1 {
      UnionEachHas(n - 1, part, i);
    }
  }
}
