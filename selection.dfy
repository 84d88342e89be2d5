/** The row-selection step every page's callback performs:
      d = table[lo <= table[col] <= hi]          -- a boolean mask
      data = []
      for j in selected: data.append(d[d[key] == j])
      np.concatenate(data)
    Generic over the row type, the identifier column (`key`) and the mask. */
module Selection {
  import opened Callback

  /** `rows[mask]`: the rows that satisfy `keep`, in their original order. */
  function KeepRows<R(!new)>(rows: seq<R>, keep: R -> bool): (kept: seq<R>)
    ensures |kept| <= |rows|
    ensures forall x :: x in kept <==> x in rows && keep(x)
  {
    if rows == [] then []
    else (if keep(rows[0]) then [rows[0]] else []) + KeepRows(rows[1..], keep)
  }

  /** The mask `d[key] == k`. */
  function HasKey<R, K(==)>(key: R -> K, k: K): R -> bool {
    r => key(r) == k
  }

  /** `d[d[key] == k]`: the rows whose identifier is `k`. */
  function Slice<R(!new), K(==)>(d: seq<R>, key: R -> K, k: K): (s: seq<R>)
    ensures forall x :: x in s <==> x in d && key(x) == k
  {
    KeepRows(d, HasKey(key, k))
  }

  /** What the append loop followed by the concatenation yields: one slice per
      entry of `selected`, in the order of `selected`. */
  function Grouped<R(!new), K(==)>(d: seq<R>, key: R -> K, selected: seq<K>): (out: seq<R>)
    ensures forall x :: x in out <==> x in d && key(x) in selected
  {
    if selected == [] then []
    else
      var n := |selected| - 1;
      assert selected == selected[..n] + [selected[n]];
      Grouped(d, key, selected[..n]) + Slice(d, key, selected[n])
  }

  /** The rows of a list of slices, slice after slice. */
  function Flatten<R(!new)>(parts: seq<seq<R>>): (flat: seq<R>)
    ensures forall x :: x in flat <==> exists i :: 0 <= i < |parts| && x in parts[i]
  {
    if parts == [] then []
    else
      var n := |parts| - 1;
      assert forall i :: 0 <= i < n ==> parts[..n][i] == parts[i];
      Flatten(parts[..n]) + parts[n]
  }

  /** `np.concatenate(parts)`: joining an empty list of slices raises. */
  function Concatenate<R(!new)>(parts: seq<seq<R>>): (r: Result<seq<R>>)
    ensures r.Err? <==> parts == []
    ensures r.Err? ==> r.error == EmptyConcatenation
    ensures r.Ok? ==> forall x :: x in r.value <==> exists i :: 0 <= i < |parts| && x in parts[i]
  {
    if parts == [] then Err(EmptyConcatenation) else Ok(Flatten(parts))
  }

  /** The `for j in selected: data.append(d[d[key] == j])` loop. */
  method CollectSlices<R(!new), K(==)>(d: seq<R>, key: R -> K, selected: seq<K>) returns (data: seq<seq<R>>)
    ensures |data| == |selected|
    ensures forall i :: 0 <= i < |selected| ==> data[i] == Slice(d, key, selected[i])
    ensures Flatten(data) == Grouped(d, key, selected)
  {
    data := [];
    for i := 0 to |selected|
      invariant |data| == i
      invariant forall j :: 0 <= j < i ==> data[j] == Slice(d, key, selected[j])
      invariant Flatten(data) == Grouped(d, key, selected[..i])
    {
      var before := data;
      data := data + [Slice(d, key, selected[i])];
      assert data[..i] == before;
      assert selected[..i + 1][..i] == selected[..i];
    }
    assert selected[..|selected|] == selected;
  }

  /** `a` occurs in `b` in order, possibly with gaps (greedy matching). */
  ghost predicate IsSubsequence<R(!new)>(a: seq<R>, b: seq<R>)
    decreases |b|
  {
    if a == [] then true
    else if b == [] then false
    else if a[0] == b[0] then IsSubsequence(a[1..], b[1..])
    else IsSubsequence(a, b[1..])
  }

  /** The number of rows whose identifier is `k`. */
  function KeyCount<R(!new), K(==)>(d: seq<R>, key: R -> K, k: K): nat
  {
    if d == [] then 0
    else (if key(d[0]) == k then 1 else 0) + KeyCount(d[1..], key, k)
  }

  /** The sum, over each entry of `selected` (repeats counted), of the number
      of rows with that identifier. */
  function SelectionSize<R(!new), K(==)>(d: seq<R>, key: R -> K, selected: seq<K>): nat
  {
    if selected == [] then 0
    else KeyCount(d, key, selected[0]) + SelectionSize(d, key, selected[1..])
  }

  /** The mask keeps every row that satisfies it as often as it occurs, and no other. */
  lemma {:induction false} KeepRowsCount<R(!new)>(rows: seq<R>, keep: R -> bool, x: R)
    ensures multiset(KeepRows(rows, keep))[x] == if keep(x) then multiset(rows)[x] else 0
  {
    if rows != [] {
      KeepRowsCount(rows[1..], keep, x);
      assert rows == [rows[0]] + rows[1..];
    }
  }

  /** The mask keeps the original order of the rows. */
  lemma {:induction false} KeepRowsInOrder<R(!new)>(rows: seq<R>, keep: R -> bool)
    ensures IsSubsequence(KeepRows(rows, keep), rows)
  {
    if rows != [] {
      KeepRowsInOrder(rows[1..], keep);
      var rest := KeepRows(rows[1..], keep);
      if keep(rows[0]) {
        assert KeepRows(rows, keep) == [rows[0]] + rest;
        assert ([rows[0]] + rest)[1..] == rest;
      } else {
        assert KeepRows(rows, keep) == rest;
        if rest != [] {
          assert rest[0] in rest;
        }
      }
    }
  }

  /** Masking twice is masking once with both conditions. */
  lemma {:induction false} KeepRowsTwice<R(!new)>(rows: seq<R>, first: R -> bool, second: R -> bool, both: R -> bool)
    requires forall r :: both(r) == (first(r) && second(r))
    ensures KeepRows(KeepRows(rows, first), second) == KeepRows(rows, both)
  {
    if rows != [] {
      var head, tail := rows[0], rows[1..];
      KeepRowsTwice(tail, first, second, both);
      var rest := KeepRows(tail, first);
      assert KeepRows(rows, both) == (if both(head) then [head] else []) + KeepRows(tail, both);
      if first(head) {
        var once := [head] + rest;
        assert KeepRows(rows, first) == once;
        assert once[0] == head && once[1..] == rest;
        assert KeepRows(once, second) == (if second(head) then [head] else []) + KeepRows(rest, second);
      } else {
        assert KeepRows(rows, first) == rest;
      }
    }
  }

  /** Every slice holds the rows of one identifier, in the original order. */
  lemma SliceInOrder<R(!new), K>(d: seq<R>, key: R -> K, k: K)
    ensures IsSubsequence(Slice(d, key, k), d)
    ensures forall x :: x in Slice(d, key, k) ==> key(x) == k
  {
    KeepRowsInOrder(d, HasKey(key, k));
  }

  /** A slice has as many rows as the table has rows with that identifier. */
  lemma {:induction false} SliceLength<R(!new), K>(d: seq<R>, key: R -> K, k: K)
    ensures |Slice(d, key, k)| == KeyCount(d, key, k)
  {
    if d != [] {
      SliceLength(d[1..], key, k);
    }
  }

  /** Selecting one more identifier appends its slice. */
  lemma GroupedSnoc<R(!new), K>(d: seq<R>, key: R -> K, s: seq<K>, k: K)
    ensures Grouped(d, key, s + [k]) == Grouped(d, key, s) + Slice(d, key, k)
  {
  }

  /** Selecting `s1 + s2` yields the rows for `s1`, then the rows for `s2`. */
  lemma {:induction false} GroupedAppend<R(!new), K>(d: seq<R>, key: R -> K, s1: seq<K>, s2: seq<K>)
    ensures Grouped(d, key, s1 + s2) == Grouped(d, key, s1) + Grouped(d, key, s2)
    decreases |s2|
  {
    if s2 == [] {
      assert s1 + s2 == s1;
    } else {
      var n := |s2| - 1;
      var front, k := s2[..n], s2[n];
      assert s2 == front + [k];
      GroupedAppend(d, key, s1, front);
      ConcatAssoc(s1, front, [k]);
      GroupedSnoc(d, key, s1 + front, k);
      GroupedSnoc(d, key, front, k);
      ConcatAssoc(Grouped(d, key, s1), Grouped(d, key, front), Slice(d, key, k));
    }
  }

  lemma ConcatAssoc<T>(a: seq<T>, b: seq<T>, c: seq<T>)
    ensures (a + b) + c == a + (b + c)
  {
  }

  /** Ordering: the slice of the i-th selected identifier sits after the
      slices of the identifiers selected before it and before those selected after it. */
  lemma GroupedBlock<R(!new), K>(d: seq<R>, key: R -> K, selected: seq<K>, i: nat)
    requires i < |selected|
    ensures Grouped(d, key, selected)
         == Grouped(d, key, selected[..i]) + Slice(d, key, selected[i]) + Grouped(d, key, selected[i + 1..])
  {
    assert selected == selected[..i] + [selected[i]] + selected[i + 1..];
    GroupedAppend(d, key, selected[..i] + [selected[i]], selected[i + 1..]);
    GroupedAppend(d, key, selected[..i], [selected[i]]);
    assert [selected[i]][..0] == [];
  }

  /** Multiplicity: a row appears once for every time its identifier is selected,
      times the number of times it occurs in the table. */
  lemma {:induction false} GroupedCount<R(!new), K>(d: seq<R>, key: R -> K, selected: seq<K>, x: R)
    ensures multiset(Grouped(d, key, selected))[x] == multiset(selected)[key(x)] * multiset(d)[x]
  {
    if selected != [] {
      var n := |selected| - 1;
      var prefix, last := selected[..n], selected[n];
      GroupedCount(d, key, prefix, x);
      SliceCount(d, key, last, x);
      GroupedLast(d, key, selected, x);
      CountStep(multiset(prefix)[key(x)], if key(x) == last then 1 else 0, multiset(d)[x],
                multiset(Grouped(d, key, prefix))[x], multiset(Slice(d, key, last))[x]);
    }
  }

  lemma SliceCount<R(!new), K>(d: seq<R>, key: R -> K, k: K, x: R)
    ensures multiset(Slice(d, key, k))[x] == if key(x) == k then multiset(d)[x] else 0
  {
    KeepRowsCount(d, HasKey(key, k), x);
  }

  lemma GroupedLast<R(!new), K>(d: seq<R>, key: R -> K, selected: seq<K>, x: R)
    requires selected != []
    ensures var n := |selected| - 1;
            multiset(Grouped(d, key, selected))[x]
              == multiset(Grouped(d, key, selected[..n]))[x] + multiset(Slice(d, key, selected[n]))[x]
            && multiset(selected)[key(x)]
              == multiset(selected[..n])[key(x)] + if key(x) == selected[n] then 1 else 0
  {
    var n := |selected| - 1;
    assert selected == selected[..n] + [selected[n]];
  }

  lemma CountStep(a: int, b: int, m: int, before: int, here: int)
    requires before == a * m
    requires here == if b == 1 then m else 0
    requires b == 0 || b == 1
    ensures before + here == (a + b) * m
  {
  }

  /** The selection's length is the sum over the selected identifiers
      (repeats counted) of the number of rows with that identifier. */
  lemma {:induction false} GroupedLength<R(!new), K>(d: seq<R>, key: R -> K, selected: seq<K>)
    ensures |Grouped(d, key, selected)| == SelectionSize(d, key, selected)
    decreases |selected|
  {
    if selected != [] {
      GroupedBlock(d, key, selected, 0);
      GroupedLength(d, key, selected[1..]);
      SliceLength(d, key, selected[0]);
    }
  }
}
