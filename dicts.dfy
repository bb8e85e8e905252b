/** Python dicts with string keys, in insertion order: a sequence of (key, value) pairs with
    distinct keys. Assigning to an existing key keeps its position; a new key goes last. */
module Dicts {
  import opened Wrappers

  predicate KeysDistinct<V>(d: seq<(string, V)>) {
    forall i, j :: 0 <= i < j < |d| ==> d[i].0 != d[j].0
  }

  type Dict<V> = d: seq<(string, V)> | KeysDistinct(d) witness []

  /** `list(d.keys())`. */
  function Keys<V>(d: seq<(string, V)>): (ks: seq<string>)
    ensures |ks| == |d|
    ensures forall i :: 0 <= i < |d| ==> ks[i] == d[i].0
  {
    seq(|d|, i requires 0 <= i < |d| => d[i].0)
  }

  /** `list(d.values())`. */
  function Values<V>(d: seq<(string, V)>): (vs: seq<V>)
    ensures |vs| == |d|
    ensures forall i :: 0 <= i < |d| ==> vs[i] == d[i].1
  {
    seq(|d|, i requires 0 <= i < |d| => d[i].1)
  }

  /** `d.get(k)`: the value of the first pair with key `k`. */
  function Lookup<V>(d: seq<(string, V)>, k: string): Option<V>
    decreases |d|
  {
    if d == [] then None
    else if d[0].0 == k then Some(d[0].1)
    else Lookup(d[1..], k)
  }

  /** A lookup finds a value exactly when the key is present, and the value is paired with
      the key. */
  lemma {:induction false} LookupSome<V>(d: seq<(string, V)>, k: string)
    ensures Lookup(d, k).Some? <==> k in Keys(d)
    ensures Lookup(d, k).Some? ==> (k, Lookup(d, k).value) in d
    decreases |d|
  {
    if d != [] {
      assert Keys(d) == [d[0].0] + Keys(d[1..]);
      LookupSome(d[1..], k);
    }
  }

  /** In a dict, the value stored at position `i` is what a lookup of its key finds. */
  lemma {:induction false} LookupAt<V>(d: Dict<V>, i: nat)
    requires i < |d|
    ensures Lookup(d, d[i].0) == Some(d[i].1)
    decreases |d|
  {
    if i > 0 {
      LookupAt(d[1..], i - 1);
    }
  }

  /** The position of key `k` in `d`. */
  function IndexOf<V>(d: seq<(string, V)>, k: string): (i: nat)
    requires k in Keys(d)
    ensures i < |d| && d[i].0 == k
    decreases |d|
  {
    if d[0].0 == k then 0
    else
      assert Keys(d) == [d[0].0] + Keys(d[1..]);
      1 + IndexOf(d[1..], k)
  }

  /** `d[k] = v`. */
  function Put<V>(d: Dict<V>, k: string, v: V): (r: Dict<V>)
    ensures Lookup(r, k) == Some(v)
    ensures forall k' :: k' != k ==> Lookup(r, k') == Lookup(d, k')
    ensures Keys(r) == if k in Keys(d) then Keys(d) else Keys(d) + [k]
  {
    AssignFacts(d, k, v);
    Assign(d, k, v)
  }

  /** The pairs of `d` with the value of `k` replaced in place, or `(k, v)` appended. */
  function Assign<V>(d: seq<(string, V)>, k: string, v: V): seq<(string, V)>
    decreases |d|
  {
    if d == [] then [(k, v)]
    else if d[0].0 == k then [(k, v)] + d[1..]
    else [d[0]] + Assign(d[1..], k, v)
  }

  lemma {:induction false} AssignFacts<V>(d: Dict<V>, k: string, v: V)
    ensures var r := Assign(d, k, v);
            && KeysDistinct(r)
            && Lookup(r, k) == Some(v)
            && (forall k' :: k' != k ==> Lookup(r, k') == Lookup(d, k'))
            && Keys(r) == (if k in Keys(d) then Keys(d) else Keys(d) + [k])
    decreases |d|
  {
    if d == [] {
      assert Keys([(k, v)]) == [k];
    } else if d[0].0 == k {
      PutHere(d, v);
    } else {
      TailDistinct(d);
      AssignFacts(d[1..], k, v);
      PutThere(d, k, v, Assign(d[1..], k, v));
    }
  }

  lemma TailDistinct<V>(d: Dict<V>)
    requires d != []
    ensures KeysDistinct(d[1..])
  {
    var t := d[1..];
    forall i, j | 0 <= i < j < |t| ensures t[i].0 != t[j].0 {
      assert t[i] == d[i + 1] && t[j] == d[j + 1];
    }
  }

  /** Assigning to the first key replaces its value in place. */
  lemma PutHere<V>(d: Dict<V>, v: V)
    requires d != []
    ensures var k, r := d[0].0, [(d[0].0, v)] + d[1..];
            && KeysDistinct(r)
            && Lookup(r, k) == Some(v)
            && (forall k' :: k' != k ==> Lookup(r, k') == Lookup(d, k'))
            && Keys(r) == (if k in Keys(d) then Keys(d) else Keys(d) + [k])
  {
    var r := [(d[0].0, v)] + d[1..];
    forall i | 0 < i < |r| ensures r[i] == d[i] {
    }
    assert r[1..] == d[1..];
    assert Keys(r)[0] == Keys(d)[0];
    forall i, j | 0 <= i < j < |r| ensures r[i].0 != r[j].0 {
      assert r[i].0 == d[i].0 && r[j].0 == d[j].0;
    }
  }

  /** The recursive case of `Put`: the first pair stays in front of the updated rest. */
  lemma PutThere<V>(d: Dict<V>, k: string, v: V, rest: Dict<V>)
    requires d != [] && d[0].0 != k
    requires Lookup(rest, k) == Some(v)
    requires forall k' :: k' != k ==> Lookup(rest, k') == Lookup(d[1..], k')
    requires Keys(rest) == if k in Keys(d[1..]) then Keys(d[1..]) else Keys(d[1..]) + [k]
    ensures var r := [d[0]] + rest;
            && KeysDistinct(r)
            && Lookup(r, k) == Some(v)
            && (forall k' :: k' != k ==> Lookup(r, k') == Lookup(d, k'))
            && Keys(r) == (if k in Keys(d) then Keys(d) else Keys(d) + [k])
  {
    PutThereKeys(d, k, Keys(rest), Keys([d[0]] + rest));
    PutThereDistinct(d[0], rest);
    assert ([d[0]] + rest)[1..] == rest;
  }

  lemma PutThereKeys<V>(d: Dict<V>, k: string, restKeys: seq<string>, keys: seq<string>)
    requires d != [] && d[0].0 != k
    requires restKeys == if k in Keys(d[1..]) then Keys(d[1..]) else Keys(d[1..]) + [k]
    requires keys == [d[0].0] + restKeys
    ensures d[0].0 !in restKeys
    ensures keys == if k in Keys(d) then Keys(d) else Keys(d) + [k]
  {
    var t := d[1..];
    assert Keys(d) == [d[0].0] + Keys(t);
    forall i | 0 <= i < |t| ensures Keys(t)[i] != d[0].0 {
      assert t[i] == d[i + 1];
    }
    assert k in Keys(d) <==> k in Keys(t);
  }

  /** Putting a pair in front of a dict without its key keeps keys distinct. */
  lemma PutThereDistinct<V>(x: (string, V), rest: Dict<V>)
    requires x.0 !in Keys(rest)
    ensures KeysDistinct([x] + rest)
  {
    var r := [x] + rest;
    forall i, j | 0 <= i < j < |r| ensures r[i].0 != r[j].0 {
      if i == 0 {
        assert r[j] == rest[j - 1] && Keys(rest)[j - 1] == rest[j - 1].0;
      } else {
        assert r[i] == rest[i - 1] && r[j] == rest[j - 1];
      }
    }
  }

  /** A key is present after an assignment exactly when it was present before or was assigned. */
  lemma PutKeys<V>(d: Dict<V>, k: string, v: V, k': string)
    ensures k' in Keys(Put(d, k, v)) <==> k' in Keys(d) || k' == k
  {
  }

  /** A dict of natural numbers: the sum of its values. */
  function SumValues(d: seq<(string, nat)>): nat
    decreases |d|
  {
    if d == [] then 0 else d[0].1 + SumValues(d[1..])
  }

  /** Assigning `v` to `k` changes the sum of values by `v` minus the value it replaces. */
  lemma {:induction false} SumValuesPut(d: Dict<nat>, k: string, v: nat)
    ensures SumValues(Put(d, k, v)) + Lookup(d, k).GetOr(0) == SumValues(d) + v
    decreases |d|
  {
    if d != [] && d[0].0 != k {
      var t: Dict<nat> := d[1..];
      SumValuesPut(t, k, v);
      assert Put(d, k, v) == [d[0]] + Put(t, k, v);
      assert ([d[0]] + Put(t, k, v))[1..] == Put(t, k, v);
    } else if d != [] {
      assert Put(d, k, v) == [(k, v)] + d[1..];
      assert ([(k, v)] + d[1..])[1..] == d[1..];
    }
  }

  /** A pair of a dict is what a lookup of its key finds. */
  lemma LookupMember<V>(d: Dict<V>, x: (string, V))
    requires x in d
    ensures Lookup(d, x.0) == Some(x.1)
  {
    var i :| 0 <= i < |d| && d[i] == x;
    LookupAt(d, i);
  }

  /** A rearrangement of a dict's pairs still has distinct keys. */
  lemma PermutationKeepsKeysDistinct<V>(d: Dict<V>, s: seq<(string, V)>)
    requires multiset(s) == multiset(d)
    ensures KeysDistinct(s)
  {
    forall i, j | 0 <= i < j < |s| ensures s[i].0 != s[j].0 {
      if s[i].0 == s[j].0 {
        assert s[i] in multiset(d) && s[j] in multiset(d);
        var a :| 0 <= a < |d| && d[a] == s[i];
        var b :| 0 <= b < |d| && d[b] == s[j];
        if s[i] == s[j] {
          assert s == s[..j] + s[j..];
          assert s[i] in s[..j] && s[j] in s[j..];
          assert multiset(s)[s[i]] >= 2;
          DictMultiplicity(d, a);
        }
      }
    }
  }

  /** A rearrangement of a dict's pairs is a dict with the same pairs and the same keys. */
  lemma PermutedDict<V>(d: Dict<V>, s: seq<(string, V)>)
    requires multiset(s) == multiset(d)
    ensures KeysDistinct(s)
    ensures forall x :: x in s <==> x in d
    ensures forall k :: k in Keys(s) <==> k in Keys(d)
    ensures forall i :: 0 <= i < |s| ==> Lookup(d, s[i].0) == Some(s[i].1)
  {
    PermutationKeepsKeysDistinct(d, s);
    forall i | 0 <= i < |s| ensures Lookup(d, s[i].0) == Some(s[i].1) {
      assert s[i] in multiset(d);
      LookupMember(d, s[i]);
    }
    forall x ensures x in s <==> x in d {
      assert x in s <==> x in multiset(s);
      assert x in d <==> x in multiset(d);
    }
    forall k ensures k in Keys(s) <==> k in Keys(d) {
      if k in Keys(s) {
        var i :| 0 <= i < |s| && Keys(s)[i] == k;
        assert s[i] in d;
        var j :| 0 <= j < |d| && d[j] == s[i];
        assert Keys(d)[j] == k;
      }
      if k in Keys(d) {
        var j :| 0 <= j < |d| && Keys(d)[j] == k;
        assert d[j] in s;
        var i :| 0 <= i < |s| && s[i] == d[j];
        assert Keys(s)[i] == k;
      }
    }
  }

  /** Each pair of a dict occurs in it once. */
  lemma {:induction false} DictMultiplicity<V>(d: Dict<V>, a: nat)
    requires a < |d|
    ensures multiset(d)[d[a]] == 1
    decreases |d|
  {
    assert d == [d[0]] + d[1..];
    if a == 0 {
      assert d[0] !in d[1..];
    } else {
      DictMultiplicity(d[1..], a - 1);
      assert d[a] != d[0];
    }
  }
}
