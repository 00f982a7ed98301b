/** Option, Result, the exceptions the pipeline raises, SQLite text cells,
    first-match search and order-preserving selection, shared by every module. */
module Common {

  datatype Option<+T> = None | Some(value: T) {
    function GetOr(default: T): T {
      if Some? then value else default
    }
  }

  /** The exception classes the modelled code raises or lets escape. */
  datatype Error =
    | ValueError(message: string)      // unknown topic name
    | HttpError(status: int)           // requests' raise_for_status
    | KeyError(key: string)            // missing dict key or DataFrame column
    | AttributeError(name: string)     // attribute read on a dict instead of a ranker response
    | IndexError                       // list or iloc position out of range
    | ClientError                      // aiohttp transport failure
    | OperationalError(table: string)  // sqlite3: no such table
    | IntegrityError(column: string)   // sqlite3: NOT NULL constraint failed

  /** What a Python call does: returns a value or raises. */
  datatype Result<+T> = Ok(value: T) | Err(error: Error)

  /** One SQLite TEXT cell: NULL or a string. */
  datatype Cell = Null | Text(s: string)

  /** `d.get(key, '')` on a dict of strings and nulls. */
  function GetOrEmpty(d: map<string, Cell>, key: string): (r: Cell)
    ensures key in d ==> r == d[key]
    ensures key !in d ==> r == Text("")
  {
    if key in d then d[key] else Text("")
  }

  /** Index of the first element satisfying p: the `for t in ...: if ...: return/break` search. */
  function FindFirst<T>(s: seq<T>, p: T -> bool): (r: Option<nat>)
    ensures r.Some? ==> r.value < |s| && p(s[r.value])
    ensures r.Some? ==> forall m :: 0 <= m < r.value ==> !p(s[m])
    ensures r.None? <==> forall m :: 0 <= m < |s| ==> !p(s[m])
  {
    if s == [] then None
    else if p(s[0]) then Some(0)
    else match FindFirst(s[1..], p)
      case None => None
      case Some(k) => Some(k + 1)
  }

  /** A position holding x. */
  function IndexOf<T(==)>(s: seq<T>, x: T): (k: nat)
    requires x in s
    ensures k < |s| && s[k] == x
  {
    if s[0] == x then 0 else 1 + IndexOf(s[1..], x)
  }

  /** Number of true entries. */
  function Count(keep: seq<bool>): (n: nat)
    ensures n <= |keep|
  {
    if keep == [] then 0 else (if keep[0] then 1 else 0) + Count(keep[1..])
  }

  /** Nothing is kept exactly when no flag is set. */
  lemma {:induction false} CountZero(keep: seq<bool>)
    ensures Count(keep) == 0 <==> forall k :: 0 <= k < |keep| ==> !keep[k]
  {
    if keep != [] {
      CountZero(keep[1..]);
      assert forall k :: 1 <= k < |keep| ==> keep[k] == keep[1..][k - 1];
    }
  }

  /** The elements of s whose flag is set, in order: a row selection that keeps order. */
  function Mask<T>(s: seq<T>, keep: seq<bool>): (r: seq<T>)
    requires |keep| == |s|
    ensures |r| == Count(keep)
  {
    if s == [] then [] else (if keep[0] then [s[0]] else []) + Mask(s[1..], keep[1..])
  }

  /** Positions of the true entries (in increasing order, by KeptIndicesIncreasing). */
  function KeptIndices(keep: seq<bool>): (r: seq<nat>)
    ensures |r| == Count(keep)
    ensures forall a :: 0 <= a < |r| ==> r[a] < |keep| && keep[r[a]]
  {
    if keep == [] then []
    else
      (if keep[0] then [0] else []) + Shifted(KeptIndices(keep[1..]))
  }

  /** Every position one further on. */
  function Shifted(xs: seq<nat>): (r: seq<nat>)
    ensures |r| == |xs| && forall a :: 0 <= a < |xs| ==> r[a] == xs[a] + 1
  {
    if xs == [] then [] else [xs[0] + 1] + Shifted(xs[1..])
  }

  lemma {:induction false} KeptIndicesIncreasing(keep: seq<bool>)
    ensures forall a, b :: 0 <= a < b < |KeptIndices(keep)| ==> KeptIndices(keep)[a] < KeptIndices(keep)[b]
  {
    if keep != [] {
      KeptIndicesIncreasing(keep[1..]);
      var shifted := Shifted(KeptIndices(keep[1..]));
      var head: seq<nat> := if keep[0] then [0] else [];
    }
  }

  /** a is obtained from b by deleting elements and keeping the order of the rest. */
  ghost predicate IsSubsequence<T>(a: seq<T>, b: seq<T>) {
    exists keep: seq<bool> :: |keep| == |b| && Mask(b, keep) == a
  }

  /** KeptIndices, one step unfolded: positions in the tail shift by one. */
  lemma KeptIndicesTail(keep: seq<bool>, a: nat)
    requires keep != [] && a < Count(keep[1..])
    ensures keep[0] ==> a + 1 < |KeptIndices(keep)| && KeptIndices(keep)[a + 1] == KeptIndices(keep[1..])[a] + 1
    ensures !keep[0] ==> a < |KeptIndices(keep)| && KeptIndices(keep)[a] == KeptIndices(keep[1..])[a] + 1
  {
    var shifted := Shifted(KeptIndices(keep[1..]));
    if keep[0] {
      assert KeptIndices(keep) == [0] + shifted;
      assert ([0] + shifted)[a + 1] == shifted[a];
    } else {
      assert KeptIndices(keep) == [] + shifted;
      assert [] + shifted == shifted;
    }
  }

  /** The a-th selected element is the element at the a-th kept position. */
  lemma {:induction false} MaskAt<T>(s: seq<T>, keep: seq<bool>, a: nat)
    requires |keep| == |s| && a < Count(keep)
    ensures |KeptIndices(keep)| == |Mask(s, keep)|
    ensures Mask(s, keep)[a] == s[KeptIndices(keep)[a]]
  {
    var tail := Mask(s[1..], keep[1..]);
    var head := if keep[0] then [s[0]] else [];
    assert Mask(s, keep) == head + tail;
    if keep[0] && a == 0 {
      assert KeptIndices(keep)[0] == 0;
    } else {
      var b := if keep[0] then a - 1 else a;
      MaskAt(s[1..], keep[1..], b);
      KeptIndicesTail(keep, b);
      assert Mask(s, keep)[a] == tail[b];
      assert KeptIndices(keep)[a] == KeptIndices(keep[1..])[b] + 1;
    }
  }

  /** Keeping every element changes nothing. */
  lemma {:induction false} MaskAll<T>(s: seq<T>, keep: seq<bool>)
    requires |keep| == |s| && forall k :: 0 <= k < |keep| ==> keep[k]
    ensures Mask(s, keep) == s
  {
    if s != [] { MaskAll(s[1..], keep[1..]); }
  }

  /** Two successive selections are one selection with the combined flags. */
  function Compose(k1: seq<bool>, k2: seq<bool>): (r: seq<bool>)
    requires |k2| == Count(k1)
    ensures |r| == |k1|
  {
    if k1 == [] then []
    else if k1[0] then [k2[0]] + Compose(k1[1..], k2[1..])
    else [false] + Compose(k1[1..], k2)
  }

  lemma {:induction false} MaskCompose<T>(s: seq<T>, k1: seq<bool>, k2: seq<bool>)
    requires |k1| == |s| && |k2| == Count(k1)
    ensures Mask(Mask(s, k1), k2) == Mask(s, Compose(k1, k2))
  {
    if s != [] {
      MaskCompose(s[1..], k1[1..], if k1[0] then k2[1..] else k2);
      var m1 := Mask(s[1..], k1[1..]);
      if k1[0] {
        var x := [s[0]] + m1;
        assert Mask(s, k1) == x;
        assert x[0] == s[0] && x[1..] == m1;
        assert Mask(x, k2) == (if k2[0] then [s[0]] else []) + Mask(m1, k2[1..]);
      } else {
        assert Mask(s, k1) == m1;
      }
    }
  }

  /** Every kept element is in the selection. */
  lemma {:induction false} MaskContains<T>(s: seq<T>, keep: seq<bool>, k: nat)
    requires |keep| == |s| && k < |s| && keep[k]
    ensures s[k] in Mask(s, keep)
  {
    if k > 0 {
      MaskContains(s[1..], keep[1..], k - 1);
    }
  }

  /** Every element of the selection is a kept element of the original. */
  lemma MaskMember<T>(s: seq<T>, keep: seq<bool>, a: nat)
    requires |keep| == |s| && a < |Mask(s, keep)|
    ensures exists k :: 0 <= k < |s| && keep[k] && Mask(s, keep)[a] == s[k]
  {
    MaskAt(s, keep, a);
  }

  /** A selection keeps its elements in their original relative order, so a
      key that strictly increases along s strictly increases along the selection. */
  lemma MaskKeepsIncreasing<T>(s: seq<T>, keep: seq<bool>, key: T -> int)
    requires |keep| == |s|
    requires forall i, j :: 0 <= i < j < |s| ==> key(s[i]) < key(s[j])
    ensures forall a, b :: 0 <= a < b < |Mask(s, keep)| ==> key(Mask(s, keep)[a]) < key(Mask(s, keep)[b])
  {
    KeptIndicesIncreasing(keep);
    forall a, b | 0 <= a < b < |Mask(s, keep)|
      ensures key(Mask(s, keep)[a]) < key(Mask(s, keep)[b])
    {
      MaskAt(s, keep, a);
      MaskAt(s, keep, b);
      var i := KeptIndices(keep)[a];
      var j := KeptIndices(keep)[b];
      assert i < j;
      assert key(s[i]) < key(s[j]);
    }
  }

  /** A selection of distinct elements has distinct elements. */
  lemma MaskKeepsDistinct<T, K>(s: seq<T>, keep: seq<bool>, key: T -> K)
    requires |keep| == |s|
    requires forall i, j :: 0 <= i < j < |s| ==> key(s[i]) != key(s[j])
    ensures forall a, b :: 0 <= a < b < |Mask(s, keep)| ==> key(Mask(s, keep)[a]) != key(Mask(s, keep)[b])
  {
    KeptIndicesIncreasing(keep);
    forall a, b | 0 <= a < b < |Mask(s, keep)|
      ensures key(Mask(s, keep)[a]) != key(Mask(s, keep)[b])
    {
      MaskAt(s, keep, a);
      MaskAt(s, keep, b);
      var i := KeptIndices(keep)[a];
      var j := KeptIndices(keep)[b];
      assert i < j;
      assert key(s[i]) != key(s[j]);
    }
  }

  /** Selecting a selection is again a selection of the original. */
  lemma SubsequenceOfMask<T>(s: seq<T>, k1: seq<bool>, k2: seq<bool>)
    requires |k1| == |s| && |k2| == Count(k1)
    ensures IsSubsequence(Mask(Mask(s, k1), k2), s)
  {
    MaskCompose(s, k1, k2);
  }
}
