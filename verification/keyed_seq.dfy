/**
 Ordered sequences of records identified by an integer key: the array idioms
 the state layers use on them, `filter(x => x.id !== k)` (both layers) and
 `find`/`findIndex(x => x.id === k)` (the projects slice), and the number of
 records carrying a key, which the proofs about them use. The key is passed
 as a function so that board tasks, projects and subtasks share one
 definition.
 */
module KeyedSeq {
  import opened Wrappers

  /** Number of elements of `s` whose key is `k`. */
  function Count<T>(s: seq<T>, key: T -> int, k: int): (n: nat)
    ensures n <= |s|
    ensures n == 0 <==> forall i :: 0 <= i < |s| ==> key(s[i]) != k
  {
    if |s| == 0 then 0
    else (if key(s[0]) == k then 1 else 0) + Count(s[1..], key, k)
  }

  /** `s.filter(x => key(x) !== k)`: every element whose key is not `k`, in order. */
  function Without<T>(s: seq<T>, key: T -> int, k: int): (r: seq<T>)
    ensures |r| == |s| - Count(s, key, k)
    ensures forall i :: 0 <= i < |r| ==> key(r[i]) != k
    ensures forall i :: 0 <= i < |r| ==> r[i] in s
    ensures forall j :: 0 <= j < |s| && key(s[j]) != k ==> s[j] in r
  {
    if |s| == 0 then []
    else if key(s[0]) == k then Without(s[1..], key, k)
    else [s[0]] + Without(s[1..], key, k)
  }

  /** `s.findIndex(x => key(x) === k)`, with -1 written as `None`. */
  function FindFirst<T>(s: seq<T>, key: T -> int, k: int): (r: Option<nat>)
    ensures r.Some? ==> r.value < |s| && key(s[r.value]) == k
    ensures r.Some? ==> forall j :: 0 <= j < r.value ==> key(s[j]) != k
    ensures r.None? <==> forall j :: 0 <= j < |s| ==> key(s[j]) != k
  {
    if |s| == 0 then None
    else if key(s[0]) == k then Some(0)
    else
      match FindFirst(s[1..], key, k)
      case None => None
      case Some(j) => Some(j + 1)
  }

  /** Counting distributes over concatenation. */
  lemma {:induction false} CountAppend<T>(a: seq<T>, b: seq<T>, key: T -> int, k: int)
    ensures Count(a + b, key, k) == Count(a, key, k) + Count(b, key, k)
  {
    if |a| > 0 {
      assert (a + b)[1..] == a[1..] + b;
      CountAppend(a[1..], b, key, k);
    } else {
      assert a + b == b;
    }
  }

  /** Filtering distributes over concatenation: the kept elements stay in their order. */
  lemma {:induction false} WithoutAppend<T>(a: seq<T>, b: seq<T>, key: T -> int, k: int)
    ensures Without(a + b, key, k) == Without(a, key, k) + Without(b, key, k)
  {
    if |a| > 0 {
      assert (a + b)[1..] == a[1..] + b;
      WithoutAppend(a[1..], b, key, k);
    } else {
      assert a + b == b;
    }
  }

  /** Filtering removes exactly the key `k`; other keys keep their count. */
  lemma {:induction false} CountWithout<T>(s: seq<T>, key: T -> int, k: int, x: int)
    ensures Count(Without(s, key, k), key, x) == if x == k then 0 else Count(s, key, x)
  {
    if |s| > 0 {
      CountWithout(s[1..], key, k, x);
      if key(s[0]) != k {
        CountAppend([s[0]], Without(s[1..], key, k), key, x);
      }
    }
  }

  /** Filtering is the identity exactly when no element carries the key. */
  lemma {:induction false} WithoutAbsent<T>(s: seq<T>, key: T -> int, k: int)
    ensures Without(s, key, k) == s <==> Count(s, key, k) == 0
  {
    if Count(s, key, k) == 0 && |s| > 0 {
      WithoutAbsent(s[1..], key, k);
      assert [s[0]] + s[1..] == s;
    }
  }

  /** Filtering twice by the same key is filtering once. */
  lemma WithoutIdempotent<T>(s: seq<T>, key: T -> int, k: int)
    ensures Without(Without(s, key, k), key, k) == Without(s, key, k)
  {
  }

  /** The first match depends only on the keys, position by position. */
  lemma FindFirstSameKeys<T>(a: seq<T>, b: seq<T>, key: T -> int, k: int)
    requires |a| == |b|
    requires forall i :: 0 <= i < |a| ==> key(a[i]) == key(b[i])
    ensures FindFirst(a, key, k) == FindFirst(b, key, k)
  {
    if |a| > 0 && key(a[0]) != k {
      FindFirstSameKeys(a[1..], b[1..], key, k);
    }
  }

  /** When the element at `i` is the only one with its key, filtering that key deletes position `i`. */
  lemma {:induction false} WithoutUniqueAt<T>(s: seq<T>, key: T -> int, i: nat)
    requires i < |s| && Count(s, key, key(s[i])) == 1
    ensures Without(s, key, key(s[i])) == s[..i] + s[i + 1..]
  {
    var k := key(s[i]);
    if i == 0 {
      WithoutAbsent(s[1..], key, k);
    } else {
      assert s[1..][i - 1] == s[i];
      WithoutUniqueAt(s[1..], key, i - 1);
      assert s[1..][..i - 1] + s[1..][i..] == s[1..i] + s[i + 1..];
      assert [s[0]] + s[1..i] == s[..i];
    }
  }

  /** Two kept elements keep their relative order: filtering never swaps them. */
  lemma WithoutKeepsOrder<T>(s: seq<T>, key: T -> int, k: int, i: nat, j: nat)
    requires i < j < |s| && key(s[i]) != k && key(s[j]) != k
    ensures exists i', j' ::
      0 <= i' < j' < |Without(s, key, k)| && Without(s, key, k)[i'] == s[i] && Without(s, key, k)[j'] == s[j]
  {
    var pre, post := s[..j], s[j..];
    assert s == pre + post;
    WithoutAppend(pre, post, key, k);
    var wp, wq := Without(pre, key, k), Without(post, key, k);
    assert pre[i] == s[i];
    var i' :| 0 <= i' < |wp| && wp[i'] == s[i];
    assert post[0] == s[j];
    assert wq[0] == s[j];
    assert Without(s, key, k)[i'] == s[i] && Without(s, key, k)[|wp|] == s[j];
  }
}
