/** Python dictionaries filled by a loop of `d[k] = v` assignments: a later
    entry for a key replaces an earlier one, while the key keeps the place of
    its first insertion in iteration order. */
module Tables {
  import opened Optional

  predicate Defines<K(==), V>(e: Option<(K, V)>, k: K) {
    e.Some? && e.value.0 == k
  }

  /** The position of the last entry for `k`, if any. */
  function LastEntry<K(==), V>(entries: seq<Option<(K, V)>>, k: K): (r: Option<nat>)
    ensures r.None? <==> forall i :: 0 <= i < |entries| ==> !Defines(entries[i], k)
    ensures r.Some? ==> r.value < |entries| && Defines(entries[r.value], k)
                        && forall j :: r.value < j < |entries| ==> !Defines(entries[j], k)
  {
    if |entries| == 0 then None
    else if Defines(entries[|entries| - 1], k) then Some(|entries| - 1)
    else LastEntry(entries[..|entries| - 1], k)
  }

  /** The position of the first entry for `k`, if any. */
  function FirstEntry<K(==), V>(entries: seq<Option<(K, V)>>, k: K): (r: Option<nat>)
    ensures r.None? <==> forall i :: 0 <= i < |entries| ==> !Defines(entries[i], k)
    ensures r.Some? ==> r.value < |entries| && Defines(entries[r.value], k)
                        && forall j :: 0 <= j < r.value ==> !Defines(entries[j], k)
  {
    if |entries| == 0 then None
    else match FirstEntry(entries[..|entries| - 1], k)
      case Some(i) => Some(i)
      case None => if Defines(entries[|entries| - 1], k) then Some(|entries| - 1) else None
  }

  /** The dictionary left after assigning each present entry in turn: a key is
      present exactly when some entry names it, and its value is the one of the
      last such entry. */
  function Assemble<K(==,!new), V>(entries: seq<Option<(K, V)>>): (m: map<K, V>)
    ensures forall k :: k in m <==> LastEntry(entries, k).Some?
    ensures forall k :: k in m ==> entries[LastEntry(entries, k).value] == Some((k, m[k]))
  {
    if |entries| == 0 then map[]
    else
      var prefix := entries[..|entries| - 1];
      var m := Assemble(prefix);
      match entries[|entries| - 1]
      case None => m
      case Some(kv) => m[kv.0 := kv.1]
  }

  /** The keys of `Assemble(entries)` in dictionary iteration order. */
  function KeyOrder<K(==,!new), V>(entries: seq<Option<(K, V)>>): (ks: seq<K>)
    ensures forall k :: k in ks <==> k in Assemble(entries)
    ensures forall i, j :: 0 <= i < j < |ks| ==> ks[i] != ks[j]
  {
    if |entries| == 0 then []
    else
      var ks := KeyOrder(entries[..|entries| - 1]);
      match entries[|entries| - 1]
      case None => ks
      case Some(kv) => if kv.0 in ks then ks else ks + [kv.0]
  }

  /** Each key keeps the place of its first entry: keys are listed by the
      position of the first entry that assigns them. */
  lemma {:induction false} KeyOrderFirst<K(!new), V>(entries: seq<Option<(K, V)>>)
    ensures forall i :: 0 <= i < |KeyOrder(entries)| ==> FirstEntry(entries, KeyOrder(entries)[i]).Some?
    ensures forall i, j :: 0 <= i < j < |KeyOrder(entries)| ==>
              FirstEntry(entries, KeyOrder(entries)[i]).value < FirstEntry(entries, KeyOrder(entries)[j]).value
  {
    if |entries| > 0 {
      var prefix := entries[..|entries| - 1];
      var ks, out := KeyOrder(prefix), KeyOrder(entries);
      KeyOrderFirst(prefix);
      KeyOrderKept(prefix, entries, ks);
      match entries[|entries| - 1]
      case None =>
        assert out == ks;
      case Some(kv) =>
        if kv.0 in ks {
          assert out == ks;
        } else {
          assert out == ks + [kv.0];
          assert FirstEntry(entries, kv.0) == Some(|entries| - 1);
          forall i, j | 0 <= i < j < |out|
            ensures FirstEntry(entries, out[i]).value < FirstEntry(entries, out[j]).value
          {
            assert out[i] == ks[i];
            if j < |ks| {
              assert out[j] == ks[j];
            }
          }
        }
    }
  }

  /** Keys already seen in a prefix keep their first position. */
  lemma KeyOrderKept<K(!new), V>(prefix: seq<Option<(K, V)>>, entries: seq<Option<(K, V)>>, ks: seq<K>)
    requires |entries| > 0 && prefix == entries[..|entries| - 1]
    requires forall i :: 0 <= i < |ks| ==> FirstEntry(prefix, ks[i]).Some?
    requires forall k :: k in ks <==> k in Assemble(prefix)
    ensures forall i :: 0 <= i < |ks| ==> FirstEntry(entries, ks[i]) == FirstEntry(prefix, ks[i])
    ensures forall k :: k !in ks ==> FirstEntry(prefix, k).None?
  {
  }

  /** Appending an entry assigns it: it overwrites an earlier value of its key
      and leaves every other key alone. */
  lemma AssembleSnoc<K(!new), V>(entries: seq<Option<(K, V)>>, k: K, v: V)
    ensures Assemble(entries + [Some((k, v))]) == Assemble(entries)[k := v]
  {
    var es := entries + [Some((k, v))];
    assert es[..|es| - 1] == entries;
  }

  predicate StrictlyAscending(xs: seq<int>) {
    forall i, j :: 0 <= i < j < |xs| ==> xs[i] < xs[j]
  }

  /** Places `x` in an ascending sequence, unless it is already there. */
  function InsertSorted(x: int, xs: seq<int>): (r: seq<int>)
    requires StrictlyAscending(xs)
    ensures StrictlyAscending(r)
    ensures forall k :: k in r <==> k == x || k in xs
    ensures |xs| <= |r| <= |xs| + 1
  {
    if |xs| == 0 then [x]
    else if x < xs[0] then [x] + xs
    else if x == xs[0] then xs
    else
      var rest := InsertSorted(x, xs[1..]);
      assert forall k :: 0 <= k < |rest| ==> rest[k] == x || rest[k] in xs[1..];
      assert forall k :: 0 <= k < |rest| ==> xs[0] < rest[k];
      [xs[0]] + rest
  }

  /** `sorted(set(xs))`: every element of `xs` once, in strictly ascending order. */
  function SortedUnique(xs: seq<int>): (r: seq<int>)
    ensures StrictlyAscending(r)
    ensures forall k :: k in r <==> k in xs
    ensures |r| <= |xs|
  {
    if |xs| == 0 then []
    else InsertSorted(xs[|xs| - 1], SortedUnique(xs[..|xs| - 1]))
  }

  /** The first position of an element of a sequence. */
  function Position<T(==)>(xs: seq<T>, x: T): (i: nat)
    requires x in xs
    ensures i < |xs| && xs[i] == x && x !in xs[..i]
  {
    if xs[0] == x then 0 else 1 + Position(xs[1..], x)
  }
}
