/**
 * Python dictionaries keep their keys in insertion order, and the
 * extractor's results depend on that order (which worksheet is created
 * first, the order of the summary rows). A dictionary, always keyed by
 * strings here, is therefore modelled as an association list whose keys are
 * distinct.
 */
module OrderedDicts {
  import opened PyStrings

  type Dict<V> = seq<(string, V)>

  predicate Distinct<T(==)>(s: seq<T>) {
    forall i, j :: 0 <= i < j < |s| ==> s[i] != s[j]
  }

  /** `list(d.keys())` */
  function Keys<V>(d: Dict<V>): (ks: seq<string>)
    ensures |ks| == |d|
    ensures forall i {:trigger ks[i]} :: 0 <= i < |d| ==> ks[i] == d[i].0
  {
    if d == [] then [] else [d[0].0] + Keys(d[1..])
  }

  /** The dictionary invariant: no key occurs twice. */
  predicate Valid<V>(d: Dict<V>) {
    Distinct(Keys(d))
  }

  /** `k in d` */
  predicate HasKey<V>(d: Dict<V>, k: string) {
    k in Keys(d)
  }

  /** `d.get(k)`, with None for a missing key. */
  function Get<V>(d: Dict<V>, k: string): (r: Option<V>)
    ensures r.Some? <==> HasKey(d, k)
  {
    if d == [] then None
    else if d[0].0 == k then Some(d[0].1)
    else Get(d[1..], k)
  }

  /** `d.get(k, default)` */
  function GetOr<V>(d: Dict<V>, k: string, default: V): V {
    match Get(d, k)
    case Some(v) => v
    case None => default
  }

  /** In a valid dictionary the entry at position i is what Get finds. */
  lemma {:induction false} GetAt<V>(d: Dict<V>, i: nat)
    requires Valid(d) && i < |d|
    ensures Get(d, d[i].0) == Some(d[i].1)
  {
    if i > 0 {
      assert Keys(d)[0] != Keys(d)[i];
      assert Keys(d[1..]) == Keys(d)[1..];
      GetAt(d[1..], i - 1);
    }
  }

  /** `d[k] = v`: an existing key keeps its position, a new key goes last. */
  function Put<V>(d: Dict<V>, k: string, v: V): (r: Dict<V>)
    ensures Keys(r) == if HasKey(d, k) then Keys(d) else Keys(d) + [k]
    ensures Get(r, k) == Some(v)
    ensures forall k' :: k' != k ==> Get(r, k') == Get(d, k')
  {
    if d == [] then [(k, v)]
    else if d[0].0 == k then [(k, v)] + d[1..]
    else [d[0]] + Put(d[1..], k, v)
  }

  lemma PutValid<V>(d: Dict<V>, k: string, v: V)
    requires Valid(d)
    ensures Valid(Put(d, k, v))
  {
    var ks := Keys(Put(d, k, v));
    if !HasKey(d, k) {
      assert forall i :: 0 <= i < |d| ==> ks[i] == Keys(d)[i];
    }
  }

  /** `del d[k]` (and nothing for a missing key): the other entries keep
      their order. */
  function Remove<V>(d: Dict<V>, k: string): (r: Dict<V>)
    ensures !HasKey(r, k)
    ensures forall k' :: k' != k ==> Get(r, k') == Get(d, k')
    ensures |r| <= |d|
  {
    if d == [] then []
    else if d[0].0 == k then Remove(d[1..], k)
    else [d[0]] + Remove(d[1..], k)
  }

  lemma {:induction false} RemoveValid<V>(d: Dict<V>, k: string)
    requires Valid(d)
    ensures Valid(Remove(d, k))
    ensures HasKey(d, k) ==> |Remove(d, k)| == |d| - 1
    ensures !HasKey(d, k) ==> Remove(d, k) == d
  {
    if d != [] {
      assert Keys(d[1..]) == Keys(d)[1..];
      RemoveValid(d[1..], k);
      assert !HasKey(d[1..], d[0].0) by {
        var ks := Keys(d);
        assert ks[0] == d[0].0;
        forall j | 0 <= j < |ks| - 1 ensures ks[1..][j] != ks[0] {
          assert ks[1..][j] == ks[j + 1];
        }
      }
      if d[0].0 == k {
        assert Remove(d, k) == d[1..];
      } else {
        var rest := Remove(d[1..], k);
        assert Get(rest, d[0].0) == Get(d[1..], d[0].0);
        ConsValid(d[0], rest);
        assert Remove(d, k) == [d[0]] + rest;
        assert HasKey(d, k) <==> HasKey(d[1..], k) by {
          assert Keys(d) == [d[0].0] + Keys(d[1..]);
        }
      }
    }
  }

  /** In a valid dictionary, `del d[k]` takes out exactly the entry at k's
      position: the entries before and after it keep their order. */
  lemma {:induction false} RemoveAt<V>(d: Dict<V>, i: nat)
    requires Valid(d) && i < |d|
    ensures Remove(d, d[i].0) == d[..i] + d[i + 1..]
  {
    var k := d[i].0;
    assert Keys(d[1..]) == Keys(d)[1..];
    if i == 0 {
      assert !HasKey(d[1..], k) by {
        var ks := Keys(d);
        forall j | 0 <= j < |ks| - 1 ensures ks[1..][j] != k {
          assert ks[1..][j] == ks[j + 1];
          assert ks[0] == k;
        }
      }
      RemoveValid(d[1..], k);
    } else {
      assert Keys(d)[0] != Keys(d)[i];
      assert d[1..][i - 1] == d[i];
      RemoveAt(d[1..], i - 1);
      assert d[..i] == [d[0]] + d[1..][..i - 1];
      assert d[i + 1..] == d[1..][i..];
    }
  }

  /** An entry put in front of a dictionary that lacks its key. */
  lemma ConsValid<V>(e: (string, V), d: Dict<V>)
    requires Valid(d) && !HasKey(d, e.0)
    ensures Valid([e] + d)
  {
    assert Keys([e] + d) == [e.0] + Keys(d) by {
      assert ([e] + d)[1..] == d;
    }
  }

  /** A key present in a dictionary is at some position. */
  lemma {:induction false} HasKeyAt<V>(d: Dict<V>, k: string) returns (i: nat)
    requires HasKey(d, k)
    ensures i < |d| && d[i].0 == k
  {
    var ks := Keys(d);
    i :| 0 <= i < |ks| && ks[i] == k;
  }

  /** Looking up in a dictionary extended by one last entry. */
  lemma {:induction false} GetAppend<V>(d: Dict<V>, k: string, v: V, k': string)
    ensures Get(d + [(k, v)], k') ==
      if HasKey(d, k') then Get(d, k') else if k' == k then Some(v) else None
  {
    if d != [] {
      assert (d + [(k, v)])[1..] == d[1..] + [(k, v)];
      assert Keys(d)[1..] == Keys(d[1..]);
      GetAppend(d[1..], k, v, k');
    } else {
      assert Keys(d) == [];
    }
  }

  /** Dropping the last entry of a valid dictionary. */
  lemma ValidInit<V>(d: Dict<V>)
    requires Valid(d) && d != []
    ensures Valid(d[..|d| - 1])
    ensures !HasKey(d[..|d| - 1], d[|d| - 1].0)
  {
    var init := d[..|d| - 1];
    assert forall i :: 0 <= i < |init| ==> Keys(init)[i] == Keys(d)[i];
    assert Keys(d)[|d| - 1] == d[|d| - 1].0;
  }

  /** Writing a key twice keeps the second value, at the first write's place. */
  lemma {:induction false} PutPut<V>(d: Dict<V>, k: string, v1: V, v2: V)
    ensures Put(Put(d, k, v1), k, v2) == Put(d, k, v2)
  {
    if d != [] && d[0].0 != k {
      PutPut(d[1..], k, v1, v2);
    }
  }

  lemma KeysConcat<V>(a: Dict<V>, b: Dict<V>)
    ensures Keys(a + b) == Keys(a) + Keys(b)
  {
    assert forall i :: 0 <= i < |a| + |b| ==> (a + b)[i].0 == (Keys(a) + Keys(b))[i];
  }

  /** The keys of a dictionary are those of all but its last entry, and
      the last entry's key. */
  lemma HasKeyLast<V>(d: Dict<V>, k: string)
    requires d != []
    ensures HasKey(d, k) <==> HasKey(d[..|d| - 1], k) || k == d[|d| - 1].0
  {
    var init := d[..|d| - 1];
    assert d == init + [d[|d| - 1]];
    KeysConcat(init, [d[|d| - 1]]);
  }

  /** The keys left after taking out the entry at position i. */
  lemma KeysRemoveAt<V>(d: Dict<V>, i: nat)
    requires i < |d|
    ensures Keys(d[..i] + d[i + 1..]) == Keys(d)[..i] + Keys(d)[i + 1..]
  {
    var r := d[..i] + d[i + 1..];
    var ks := Keys(d)[..i] + Keys(d)[i + 1..];
    assert |Keys(r)| == |ks|;
    forall j | 0 <= j < |r| ensures Keys(r)[j] == ks[j] {
      if j < i {
        assert r[j] == d[j] && ks[j] == Keys(d)[j];
      } else {
        assert r[j] == d[j + 1] && ks[j] == Keys(d)[j + 1];
      }
    }
  }

  lemma DistinctAppend<T>(s: seq<T>, x: T)
    requires Distinct(s) && x !in s
    ensures Distinct(s + [x])
  {
  }

  /** Entries after a write are the written one or entries from before. */
  lemma {:induction false} PutMembers<V>(d: Dict<V>, k: string, v: V)
    ensures forall e :: e in Put(d, k, v) ==> e == (k, v) || e in d
  {
    if d != [] && d[0].0 != k {
      PutMembers(d[1..], k, v);
    }
  }

  lemma {:induction false} RemoveMembers<V>(d: Dict<V>, k: string)
    ensures forall e :: e in Remove(d, k) ==> e in d
  {
    if d != [] {
      RemoveMembers(d[1..], k);
    }
  }

  /** Creating a key and deleting it again is deleting it. */
  lemma {:induction false} RemovePut<V>(d: Dict<V>, k: string, v: V)
    ensures Remove(Put(d, k, v), k) == Remove(d, k)
  {
    if d != [] && d[0].0 != k {
      RemovePut(d[1..], k, v);
    } else if d != [] {
      RemoveAbsentKey(d[1..], k, v);
    }
  }

  lemma RemoveAbsentKey<V>(d: Dict<V>, k: string, v: V)
    ensures Remove([(k, v)] + d, k) == Remove(d, k)
  {
    assert ([(k, v)] + d)[1..] == d;
  }

  /** What Get finds is an entry of the dictionary. */
  lemma {:induction false} GetMember<V>(d: Dict<V>, k: string)
    requires HasKey(d, k)
    ensures (k, Get(d, k).value) in d
  {
    if d[0].0 != k {
      GetMember(d[1..], k);
    }
  }

  /** Updating the entry that was appended last, under a key that was new. */
  lemma {:induction false} PutLast<V>(d: Dict<V>, k: string, v: V, v': V)
    requires !HasKey(d, k)
    ensures Put(d + [(k, v)], k, v') == d + [(k, v')]
    ensures Get(d + [(k, v)], k) == Some(v)
  {
    if d != [] {
      assert (d + [(k, v)])[1..] == d[1..] + [(k, v)];
      assert (d + [(k, v')])[1..] == d[1..] + [(k, v')];
      PutLast(d[1..], k, v, v');
    }
  }

  /** Writing back the value a key already has changes nothing. */
  lemma {:induction false} PutSame<V>(d: Dict<V>, k: string)
    requires HasKey(d, k)
    ensures Put(d, k, Get(d, k).value) == d
  {
    if d[0].0 != k {
      PutSame(d[1..], k);
    }
  }
}
