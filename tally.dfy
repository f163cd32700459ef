/** A Python `dict` from strings to integers, as the scripts use it to sum
    values per key: an association list whose order is insertion order.
    `d[k] = v` replaces the value of an existing key in place and appends a
    new key at the end; iteration visits keys in that order. */
module Tally {
  import opened Wrappers

  type Entry = (string, int)

  function Keys(d: seq<Entry>): seq<string>
  {
    seq(|d|, i requires 0 <= i < |d| => d[i].0)
  }

  predicate Distinct(ks: seq<string>)
  {
    forall i, j :: 0 <= i < j < |ks| ==> ks[i] != ks[j]
  }

  /** Python `d.get(k)`. */
  function Get(d: seq<Entry>, k: string): Option<int>
  {
    if d == [] then None
    else if d[0].0 == k then Some(d[0].1)
    else Get(d[1..], k)
  }

  /** Python `d[k] = v`. */
  function Put(d: seq<Entry>, k: string, v: int): seq<Entry>
  {
    if d == [] then [(k, v)]
    else if d[0].0 == k then [(k, v)] + d[1..]
    else [d[0]] + Put(d[1..], k, v)
  }

  /** `if k in d: d[k] += v` / `else: d[k] = v`. */
  function AddTo(d: seq<Entry>, k: string, v: int): seq<Entry>
  {
    match Get(d, k)
    case Some(x) => Put(d, k, x + v)
    case None => Put(d, k, v)
  }

  /** The dictionary obtained by adding the pairs of `es` one after the other
      into an empty one. */
  function Accumulate(es: seq<Entry>): seq<Entry>
  {
    if es == [] then []
    else AddTo(Accumulate(es[..|es| - 1]), es[|es| - 1].0, es[|es| - 1].1)
  }

  /** The sum of the values paired with `k` in `es`. */
  function Total(es: seq<Entry>, k: string): int
  {
    if es == [] then 0
    else Total(es[..|es| - 1], k) + (if es[|es| - 1].0 == k then es[|es| - 1].1 else 0)
  }

  /** The keys of `ks`, each once, in the order of their first occurrence. */
  function FirstOccurrences(ks: seq<string>): seq<string>
  {
    if ks == [] then []
    else
      var f := FirstOccurrences(ks[..|ks| - 1]);
      if ks[|ks| - 1] in f then f else f + [ks[|ks| - 1]]
  }

  // ---------------------------------------------------------------- dict laws

  lemma {:induction false} GetDefined(d: seq<Entry>, k: string)
    ensures Get(d, k).Some? <==> k in Keys(d)
    decreases |d|
  {
    if d != [] {
      GetDefined(d[1..], k);
      assert Keys(d) == [d[0].0] + Keys(d[1..]);
    }
  }

  /** Assigning to a key appends it only when it is new. */
  lemma {:induction false} PutKeys(d: seq<Entry>, k: string, v: int)
    ensures Keys(Put(d, k, v)) == if k in Keys(d) then Keys(d) else Keys(d) + [k]
    decreases |d|
  {
    if d != [] {
      assert Keys(d) == [d[0].0] + Keys(d[1..]);
      if d[0].0 != k {
        PutKeys(d[1..], k, v);
        assert Keys(Put(d, k, v)) == [d[0].0] + Keys(Put(d[1..], k, v));
      } else {
        assert Keys(Put(d, k, v)) == [k] + Keys(d[1..]);
      }
    }
  }

  /** Reading after assigning: the assigned key reads the new value, every
      other key reads what it read before. */
  lemma {:induction false} GetPut(d: seq<Entry>, k: string, v: int, k': string)
    ensures Get(Put(d, k, v), k') == if k' == k then Some(v) else Get(d, k')
    decreases |d|
  {
    if d != [] && d[0].0 != k {
      GetPut(d[1..], k, v, k');
      assert Put(d, k, v)[1..] == Put(d[1..], k, v);
    }
  }

  /** With distinct keys, reading the key of an entry reads that entry's value. */
  lemma {:induction false} GetAt(d: seq<Entry>, i: nat)
    requires Distinct(Keys(d)) && i < |d|
    ensures Get(d, d[i].0) == Some(d[i].1)
    decreases i
  {
    if i > 0 {
      assert Keys(d)[0] != Keys(d)[i];
      assert Keys(d[1..]) == Keys(d)[1..];
      GetAt(d[1..], i - 1);
    }
  }

  // ---------------------------------------------------------------- summing

  lemma {:induction false} FirstOccurrencesMembers(ks: seq<string>)
    ensures Distinct(FirstOccurrences(ks))
    ensures forall k :: k in FirstOccurrences(ks) <==> k in ks
    decreases |ks|
  {
    if ks != [] {
      var init := ks[..|ks| - 1];
      FirstOccurrencesMembers(init);
      assert ks == init + [ks[|ks| - 1]];
    }
  }

  /** The keys of the accumulated dictionary are the distinct keys of the
      input in the order of their first occurrence. */
  lemma {:induction false} AccumulateKeys(es: seq<Entry>)
    ensures Keys(Accumulate(es)) == FirstOccurrences(Keys(es))
    ensures Distinct(Keys(Accumulate(es)))
    decreases |es|
  {
    FirstOccurrencesMembers(Keys(es));
    if es != [] {
      var init := es[..|es| - 1];
      var (k, v) := es[|es| - 1];
      AccumulateKeys(init);
      var acc := Accumulate(init);
      assert Keys(es)[..|es| - 1] == Keys(init);
      GetDefined(acc, k);
      PutKeys(acc, k, if Get(acc, k).Some? then Get(acc, k).value + v else v);
    }
  }

  lemma {:induction false} TotalOfAbsent(es: seq<Entry>, k: string)
    requires k !in Keys(es)
    ensures Total(es, k) == 0
    decreases |es|
  {
    if es != [] {
      assert Keys(es) == Keys(es[..|es| - 1]) + [es[|es| - 1].0];
      TotalOfAbsent(es[..|es| - 1], k);
    }
  }

  /** Every key of the input reads the sum of its values; every other key is
      absent. */
  lemma {:induction false} AccumulateGet(es: seq<Entry>, k: string)
    ensures Get(Accumulate(es), k) == if k in Keys(es) then Some(Total(es, k)) else None
    decreases |es|
  {
    if es != [] {
      var init := es[..|es| - 1];
      var (k', v) := es[|es| - 1];
      AccumulateGet(init, k);
      AccumulateGet(init, k');
      var acc := Accumulate(init);
      assert Keys(es) == Keys(init) + [k'];
      if k' !in Keys(init) {
        TotalOfAbsent(init, k');
      }
      GetPut(acc, k', if Get(acc, k').Some? then Get(acc, k').value + v else v, k);
    }
  }

  /** Read entry by entry: the `i`-th entry pairs the `i`-th new key with its sum. */
  lemma AccumulateEntries(es: seq<Entry>)
    ensures forall i :: 0 <= i < |Accumulate(es)| ==>
      Accumulate(es)[i].1 == Total(es, Accumulate(es)[i].0)
  {
    var d := Accumulate(es);
    AccumulateKeys(es);
    forall i | 0 <= i < |d| ensures d[i].1 == Total(es, d[i].0) {
      GetAt(d, i);
      AccumulateGet(es, d[i].0);
    }
  }
}
