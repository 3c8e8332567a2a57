/** The three array updates every list screen applies after the backend accepts a
    change (`[...list, item]`, `list.map(x => x.id === id ? f(x) : x)` and
    `list.filter(x => x.id !== id)`), the search filter, and the page view built on top.
 */
module Lists {
  import opened Results
  import opened Text
  import opened Paging

  /** `s.filter(keep)`. */
  function Filter<T>(s: seq<T>, keep: T -> bool): (r: seq<T>)
    ensures |r| <= |s|
    ensures forall i :: 0 <= i < |r| ==> keep(r[i])
  {
    if |s| == 0 then []
    else (if keep(s[0]) then [s[0]] else []) + Filter(s[1..], keep)
  }

  /** `a` is `b` with some entries dropped and the rest kept in order. */
  predicate SubseqOf<T(==)>(a: seq<T>, b: seq<T>)
    decreases |b|
  {
    if |a| == 0 then true
    else if |b| == 0 then false
    else if a[0] == b[0] then SubseqOf(a[1..], b[1..])
    else SubseqOf(a, b[1..])
  }

  /** The filtered list keeps, in their original order, exactly the entries that pass,
      each as many times as it occurs. */
  lemma {:induction false} FilterSpec<T>(s: seq<T>, keep: T -> bool)
    ensures SubseqOf(Filter(s, keep), s)
    ensures forall x :: x in Filter(s, keep) <==> x in s && keep(x)
    ensures forall x :: multiset(Filter(s, keep))[x] == if keep(x) then multiset(s)[x] else 0
  {
    if |s| > 0 {
      FilterSpec(s[1..], keep);
      assert s == [s[0]] + s[1..];
      assert multiset(s) == multiset([s[0]]) + multiset(s[1..]);
      assert Filter(s, keep) == (if keep(s[0]) then [s[0]] else []) + Filter(s[1..], keep);
      if keep(s[0]) {
        assert Filter(s, keep)[1..] == Filter(s[1..], keep);
      } else {
        assert Filter(s, keep) == Filter(s[1..], keep);
        SubseqCons(Filter(s[1..], keep), s[0], s[1..]);
      }
    }
  }

  /** Putting one more entry in front of the longer list keeps a subsequence one. */
  lemma {:induction false} SubseqCons<T>(a: seq<T>, x: T, t: seq<T>)
    requires SubseqOf(a, t)
    ensures SubseqOf(a, [x] + t)
    decreases |t|, 1
  {
    assert ([x] + t)[1..] == t;
    if |a| > 0 && a[0] == x {
      SubseqTail(a, t);
    }
  }

  lemma {:induction false} SubseqTail<T>(a: seq<T>, t: seq<T>)
    requires |a| > 0 && SubseqOf(a, t)
    ensures SubseqOf(a[1..], t)
    decreases |t|, 0
  {
    if a[0] == t[0] {
      SubseqCons(a[1..], t[0], t[1..]);
    } else {
      SubseqTail(a, t[1..]);
      SubseqCons(a[1..], t[0], t[1..]);
    }
    assert [t[0]] + t[1..] == t;
  }

  /** Filtering a list with one more entry at the end filters the old list and then
      decides about the new entry alone. */
  lemma {:induction false} FilterAppend<T>(s: seq<T>, x: T, keep: T -> bool)
    ensures Filter(s + [x], keep) == Filter(s, keep) + (if keep(x) then [x] else [])
  {
    if |s| > 0 {
      FilterAppend(s[1..], x, keep);
      assert (s + [x])[1..] == s[1..] + [x];
    } else {
      assert [x][1..] == [];
    }
  }

  /** A filter every entry passes keeps the whole list. */
  lemma {:induction false} FilterKeepsAll<T>(s: seq<T>, keep: T -> bool)
    requires forall i :: 0 <= i < |s| ==> keep(s[i])
    ensures Filter(s, keep) == s
  {
    if |s| > 0 {
      FilterKeepsAll(s[1..], keep);
    }
  }

  /** `s.map(x => key(x) === k ? f(x) : x)`. */
  function ReplaceWhere<T, K(==)>(s: seq<T>, key: T -> K, k: K, f: T -> T): (r: seq<T>)
    ensures |r| == |s|
    ensures forall i :: 0 <= i < |s| ==> r[i] == if key(s[i]) == k then f(s[i]) else s[i]
  {
    if |s| == 0 then []
    else [if key(s[0]) == k then f(s[0]) else s[0]] + ReplaceWhere(s[1..], key, k, f)
  }

  /** `s.filter(x => key(x) !== k)`. */
  function RemoveWhere<T, K(==)>(s: seq<T>, key: T -> K, k: K): (r: seq<T>)
    ensures |r| <= |s|
    ensures forall i :: 0 <= i < |r| ==> key(r[i]) != k
  {
    Filter(s, x => key(x) != k)
  }

  predicate HasKey<T, K(==)>(s: seq<T>, key: T -> K, k: K) {
    exists i :: 0 <= i < |s| && key(s[i]) == k
  }

  /** `s.findIndex(x => key(x) === k)`, None standing for -1. */
  function IndexOf<T, K(==)>(s: seq<T>, key: T -> K, k: K): (r: Option<nat>)
    ensures r.None? <==> !HasKey(s, key, k)
    ensures r.Some? ==> r.value < |s| && key(s[r.value]) == k
    ensures r.Some? ==> forall j :: 0 <= j < r.value ==> key(s[j]) != k
  {
    if |s| == 0 then None
    else if key(s[0]) == k then Some(0)
    else match IndexOf(s[1..], key, k)
      case None => None
      case Some(i) => Some(i + 1)
  }

  /** `s.filter((_, j) => j !== i)`: the entry at position `i` goes, the later ones move
      up by one; an index outside the list removes nothing. */
  function RemoveAt<T>(s: seq<T>, i: int): (r: seq<T>)
    ensures |r| == if 0 <= i < |s| then |s| - 1 else |s|
    ensures forall j :: 0 <= j < |r| && j < i ==> r[j] == s[j]
    ensures 0 <= i ==> forall j :: i <= j < |r| ==> r[j] == s[j + 1]
    ensures !(0 <= i < |s|) ==> r == s
  {
    if 0 <= i < |s| then s[..i] + s[i + 1..] else s
  }

  predicate UniqueKeys<T, K(==)>(s: seq<T>, key: T -> K) {
    forall i, j :: 0 <= i < j < |s| ==> key(s[i]) != key(s[j])
  }

  /** Removing by key drops exactly the entries with that key and keeps the others, in
      order. */
  lemma RemoveWhereSpec<T, K>(s: seq<T>, key: T -> K, k: K)
    ensures SubseqOf(RemoveWhere(s, key, k), s)
    ensures forall x :: x in RemoveWhere(s, key, k) <==> x in s && key(x) != k
    ensures forall x :: multiset(RemoveWhere(s, key, k))[x] == if key(x) != k then multiset(s)[x] else 0
    ensures !HasKey(s, key, k) ==> RemoveWhere(s, key, k) == s
  {
    FilterSpec(s, x => key(x) != k);
    if !HasKey(s, key, k) {
      FilterKeepsAll(s, x => key(x) != k);
    }
  }

  /** A replacement at a key no entry carries leaves the list as it was. */
  lemma ReplaceAbsent<T, K>(s: seq<T>, key: T -> K, k: K, f: T -> T)
    requires !HasKey(s, key, k)
    ensures ReplaceWhere(s, key, k, f) == s
  {
  }

  /** Appending an entry with a fresh key and then deleting that key gives back the
      original list. */
  lemma AppendThenRemove<T, K>(s: seq<T>, key: T -> K, x: T)
    requires !HasKey(s, key, key(x))
    ensures RemoveWhere(s + [x], key, key(x)) == s
  {
    var keep := (y: T) => key(y) != key(x);
    FilterAppend(s, x, keep);
    FilterKeepsAll(s, keep);
  }

  /** Unique keys stay unique: after a replacement that keeps keys, after a removal, and
      after appending an entry with a fresh key. */
  lemma UniqueKeysKept<T, K>(s: seq<T>, key: T -> K, k: K, f: T -> T, x: T)
    requires UniqueKeys(s, key)
    requires forall y :: key(f(y)) == key(y)
    ensures UniqueKeys(ReplaceWhere(s, key, k, f), key)
    ensures UniqueKeys(RemoveWhere(s, key, k), key)
    ensures !HasKey(s, key, key(x)) ==> UniqueKeys(s + [x], key)
  {
    var r := ReplaceWhere(s, key, k, f);
    assert forall i :: 0 <= i < |s| ==> key(r[i]) == key(s[i]);
    UniqueFilter(s, key, y => key(y) != k);
  }

  lemma {:induction false} UniqueFilter<T, K>(s: seq<T>, key: T -> K, keep: T -> bool)
    requires UniqueKeys(s, key)
    ensures UniqueKeys(Filter(s, keep), key)
  {
    if |s| > 0 {
      UniqueFilter(s[1..], key, keep);
      FilterKeys(s[1..], key, keep);
      var r := Filter(s, keep);
      if keep(s[0]) {
        assert r == [s[0]] + Filter(s[1..], keep);
        forall j | 0 < j < |r| ensures key(r[0]) != key(r[j]) {
          assert key(r[j]) in KeysOf(s[1..], key);
          var m :| 0 <= m < |s[1..]| && key(s[1..][m]) == key(r[j]);
          assert key(s[0]) != key(s[m + 1]);
        }
      }
    }
  }

  function KeysOf<T, K>(s: seq<T>, key: T -> K): (r: seq<K>)
    ensures |r| == |s|
    ensures forall i :: 0 <= i < |s| ==> r[i] == key(s[i])
  {
    seq(|s|, i requires 0 <= i < |s| => key(s[i]))
  }

  lemma {:induction false} FilterKeys<T, K>(s: seq<T>, key: T -> K, keep: T -> bool)
    ensures forall j :: 0 <= j < |Filter(s, keep)| ==> key(Filter(s, keep)[j]) in KeysOf(s, key)
  {
    if |s| > 0 {
      FilterKeys(s[1..], key, keep);
      var r := Filter(s, keep);
      forall j | 0 <= j < |r| ensures key(r[j]) in KeysOf(s, key) {
        var ks := KeysOf(s, key);
        if keep(s[0]) && j == 0 {
          assert ks[0] == key(s[0]);
        } else {
          var t := Filter(s[1..], keep);
          var j' := if keep(s[0]) then j - 1 else j;
          assert r[j] == t[j'];
          assert key(t[j']) in KeysOf(s[1..], key);
          var m :| 0 <= m < |s[1..]| && KeysOf(s[1..], key)[m] == key(t[j']);
          assert ks[m + 1] == key(r[j]);
        }
      }
    }
  }

  // ---------------------------------------------------------------------------
  // Search and the page view

  /** `field.toLowerCase().includes(term.toLowerCase())`. */
  predicate Matches(field: string, term: string) {
    Contains(LowerStr(field), LowerStr(term))
  }

  /** The match ignores case on both sides, and the empty term matches every field. */
  lemma MatchesSpec(field: string, term: string)
    ensures Matches(field, term) <==> exists i :: OccursAt(LowerStr(field), LowerStr(term), i)
    ensures Matches(field, "")
    ensures Matches(LowerStr(field), term) == Matches(field, term)
    ensures Matches(field, LowerStr(term)) == Matches(field, term)
  {
    ContainsIff(LowerStr(field), LowerStr(term));
    LowerStrIdempotent(field);
    LowerStrIdempotent(term);
  }

  /** What a list screen derives for rendering: the filtered list, the page count the
      pager receives, and the entries of the current page. */
  datatype View<T> = View(filtered: seq<T>, totalPages: int, visible: seq<T>)

  function PageView<T>(filtered: seq<T>, page: int, size: nat): (v: View<T>)
    requires size > 0
    ensures v.filtered == filtered
    ensures v.totalPages * size >= |filtered| && (v.totalPages == 0 <==> |filtered| == 0)
    ensures v.totalPages == 0 || v.totalPages * size - size < |filtered|
    ensures |v.visible| <= size
    ensures page >= 1 ==> v.visible == filtered[Min((page - 1) * size, |filtered|)..Min(page * size, |filtered|)]
  {
    View(filtered, CeilDiv(|filtered|, size), PageSlice(filtered, page, size))
  }
}
