/**
 * Generic facts about tables kept as sequences in row order: the first row a
 * query finds, how many rows a `COUNT(*) ... WHERE` sees, and the
 * PRIMARY KEY / UNIQUE invariants, with what appending, replacing and
 * removing a row do to them.
 */
module Tables {
  import opened Wrappers

  /** The first row satisfying `p`, as `fetchone()` on a query in row order returns it. */
  function FirstIndex<T>(s: seq<T>, p: T -> bool): (r: Option<nat>)
    ensures r.None? <==> forall i :: 0 <= i < |s| ==> !p(s[i])
    ensures r.Some? ==> r.value < |s| && p(s[r.value])
                        && forall i :: 0 <= i < r.value ==> !p(s[i])
  {
    if |s| == 0 then None
    else if p(s[0]) then Some(0)
    else match FirstIndex(s[1..], p)
      case None => None
      case Some(i) => Some(i + 1)
  }

  /** `COUNT(*)` of the rows satisfying `p`. */
  function CountWhere<T>(s: seq<T>, p: T -> bool): (n: nat)
    ensures n <= |s|
    ensures n == 0 <==> forall i :: 0 <= i < |s| ==> !p(s[i])
  {
    if |s| == 0 then 0
    else
      var rest := CountWhere(s[1..], p);
      assert forall i :: 1 <= i < |s| ==> s[1..][i - 1] == s[i];
      (if p(s[0]) then 1 else 0) + rest
  }

  /** The table with row `k` deleted. */
  function RemoveAt<T>(s: seq<T>, k: nat): (r: seq<T>)
    requires k < |s|
    ensures |r| == |s| - 1
    ensures forall i :: 0 <= i < k ==> r[i] == s[i]
    ensures forall i :: k <= i < |r| ==> r[i] == s[i + 1]
  {
    s[..k] + s[k + 1..]
  }

  /**
   * An INTEGER PRIMARY KEY AUTOINCREMENT column: keys are at least 1, below
   * the next key to be handed out, and increase in row order (hence are
   * distinct).
   */
  predicate KeysAscending<T>(s: seq<T>, key: T -> int, next: int) {
    && 1 <= next
    && (forall i :: 0 <= i < |s| ==> 1 <= key(s[i]) < next)
    && (forall i, j :: 0 <= i < j < |s| ==> key(s[i]) < key(s[j]))
  }

  /** A UNIQUE column. */
  predicate KeysDistinct<T, K(==)>(s: seq<T>, key: T -> K) {
    forall i, j :: 0 <= i < j < |s| ==> key(s[i]) != key(s[j])
  }

  /** Every row satisfies `p`. */
  predicate AllRows<T>(s: seq<T>, p: T -> bool) {
    forall i :: 0 <= i < |s| ==> p(s[i])
  }

  lemma AscendingAppend<T>(s: seq<T>, key: T -> int, next: int, x: T)
    requires KeysAscending(s, key, next) && key(x) == next && next >= 1
    ensures KeysAscending(s + [x], key, next + 1)
  {
    var t := s + [x];
    forall i, j | 0 <= i < j < |t| ensures key(t[i]) < key(t[j]) {
      if j < |s| { assert t[i] == s[i] && t[j] == s[j]; } else { assert t[i] == s[i]; }
    }
  }

  lemma AscendingRemove<T>(s: seq<T>, key: T -> int, next: int, k: nat)
    requires KeysAscending(s, key, next) && k < |s|
    ensures KeysAscending(RemoveAt(s, k), key, next)
  {
    var t := RemoveAt(s, k);
    forall i, j | 0 <= i < j < |t| ensures key(t[i]) < key(t[j]) {
      var i' := if i < k then i else i + 1;
      var j' := if j < k then j else j + 1;
      assert t[i] == s[i'] && t[j] == s[j'];
    }
  }

  lemma AscendingReplace<T>(s: seq<T>, key: T -> int, next: int, k: nat, x: T)
    requires KeysAscending(s, key, next) && k < |s| && key(x) == key(s[k])
    ensures KeysAscending(s[k := x], key, next)
  {
    var t := s[k := x];
    forall i, j | 0 <= i < j < |t| ensures key(t[i]) < key(t[j]) {
      assert key(t[i]) == key(s[i]) && key(t[j]) == key(s[j]);
    }
  }

  lemma DistinctAppend<T, K>(s: seq<T>, key: T -> K, x: T)
    requires KeysDistinct(s, key)
    requires forall i :: 0 <= i < |s| ==> key(s[i]) != key(x)
    ensures KeysDistinct(s + [x], key)
  {
    var t := s + [x];
    forall i, j | 0 <= i < j < |t| ensures key(t[i]) != key(t[j]) {
      assert t[i] == s[i];
      if j < |s| { assert t[j] == s[j]; }
    }
  }

  lemma DistinctRemove<T, K>(s: seq<T>, key: T -> K, k: nat)
    requires KeysDistinct(s, key) && k < |s|
    ensures KeysDistinct(RemoveAt(s, k), key)
  {
    var t := RemoveAt(s, k);
    forall i, j | 0 <= i < j < |t| ensures key(t[i]) != key(t[j]) {
      var i' := if i < k then i else i + 1;
      var j' := if j < k then j else j + 1;
      assert t[i] == s[i'] && t[j] == s[j'];
    }
  }

  lemma DistinctReplace<T, K>(s: seq<T>, key: T -> K, k: nat, x: T)
    requires KeysDistinct(s, key) && k < |s|
    requires forall i :: 0 <= i < |s| && i != k ==> key(s[i]) != key(x)
    ensures KeysDistinct(s[k := x], key)
  {
  }

  /** After deleting the row holding a unique key, no row holds that key. */
  lemma RemovedKeyAbsent<T, K>(s: seq<T>, key: T -> K, k: nat)
    requires KeysDistinct(s, key) && k < |s|
    ensures forall i :: 0 <= i < |s| - 1 ==> key(RemoveAt(s, k)[i]) != key(s[k])
  {
    var t := RemoveAt(s, k);
    forall i | 0 <= i < |t| ensures key(t[i]) != key(s[k]) {
      if i < k { assert t[i] == s[i]; } else { assert t[i] == s[i + 1]; }
    }
  }

  lemma AllAppend<T>(s: seq<T>, p: T -> bool, x: T)
    requires AllRows(s, p) && p(x)
    ensures AllRows(s + [x], p)
  {
    assert forall i :: 0 <= i < |s| ==> (s + [x])[i] == s[i];
  }

  lemma AllRemove<T>(s: seq<T>, p: T -> bool, k: nat)
    requires AllRows(s, p) && k < |s|
    ensures AllRows(RemoveAt(s, k), p)
  {
  }
}
