/** Sequence operations shared by the subscription list and the monitor list. */
module Lists {

  /** Index of the first element satisfying `p`, or `|s|` when there is none. */
  function First<T>(s: seq<T>, p: T -> bool): (k: nat)
    ensures k <= |s|
    ensures k < |s| ==> p(s[k])
    ensures forall j :: 0 <= j < k ==> !p(s[j])
  {
    if s == [] || p(s[0]) then 0 else 1 + First(s[1..], p)
  }

  /** All indices of elements satisfying `p`, in increasing order. */
  function Where<T>(s: seq<T>, p: T -> bool): (idx: seq<nat>)
    ensures |idx| <= |s|
  {
    if s == [] then []
    else
      var n := |s| - 1;
      Where(s[..n], p) + (if p(s[n]) then [n] else [])
  }

  ghost predicate Increasing(idx: seq<nat>, bound: nat) {
    && (forall i :: 0 <= i < |idx| ==> idx[i] < bound)
    && (forall i, j :: 0 <= i < j < |idx| ==> idx[i] < idx[j])
  }

  /** `Where` is sound, complete and strictly increasing. */
  lemma {:induction false} WhereIsExact<T>(s: seq<T>, p: T -> bool)
    ensures Increasing(Where(s, p), |s|)
    ensures forall k :: k in Where(s, p) <==> 0 <= k < |s| && p(s[k])
  {
    if s != [] {
      WhereIsExact(s[..|s| - 1], p);
    }
  }

  lemma WhereHolds<T>(s: seq<T>, p: T -> bool, i: nat)
    requires i < |Where(s, p)|
    ensures Where(s, p)[i] < |s| && p(s[Where(s, p)[i]])
  {
    WhereIsExact(s, p);
    assert Where(s, p)[i] in Where(s, p);
  }

  lemma WhereFinds<T>(s: seq<T>, p: T -> bool, k: nat) returns (i: nat)
    requires k < |s| && p(s[k])
    ensures i < |Where(s, p)| && Where(s, p)[i] == k
  {
    WhereIsExact(s, p);
    assert k in Where(s, p);
    i :| 0 <= i < |Where(s, p)| && Where(s, p)[i] == k;
  }

  lemma WhereStep<T>(s: seq<T>, p: T -> bool, k: nat)
    requires k < |s|
    ensures Where(s[..k + 1], p) == Where(s[..k], p) + if p(s[k]) then [k] else []
  {
    assert s[..k + 1][..k] == s[..k];
  }

  /** The elements that do not satisfy `p`, in their original order. */
  function Drop<T>(s: seq<T>, p: T -> bool): (r: seq<T>)
    ensures |r| <= |s|
  {
    if s == [] then []
    else
      var n := |s| - 1;
      Drop(s[..n], p) + (if p(s[n]) then [] else [s[n]])
  }

  lemma {:induction false} DropMembers<T(!new)>(s: seq<T>, p: T -> bool)
    ensures forall x :: x in Drop(s, p) <==> x in s && !p(x)
  {
    if s != [] {
      var n := |s| - 1;
      DropMembers(s[..n], p);
      assert s == s[..n] + [s[n]];
    }
  }

  lemma {:induction false} DropAppend<T>(a: seq<T>, b: seq<T>, p: T -> bool)
    ensures Drop(a + b, p) == Drop(a, p) + Drop(b, p)
  {
    if b == [] {
      assert a + b == a;
    } else {
      var front, x := b[..|b| - 1], b[|b| - 1];
      assert b == front + [x] && a + b == (a + front) + [x];
      hide Drop;
      DropAppend(a, front, p);
      DropSnoc(a + front, x, p);
      DropSnoc(front, x, p);
    }
  }

  lemma DropSnoc<T>(s: seq<T>, x: T, p: T -> bool)
    ensures Drop(s + [x], p) == Drop(s, p) + if p(x) then [] else [x]
  {
    assert (s + [x])[..|s|] == s;
  }

  /** The filter around one position. */
  lemma {:induction false} DropAround<T>(s: seq<T>, k: nat, p: T -> bool)
    requires k < |s|
    ensures Drop(s, p) == Drop(s[..k], p) + (if p(s[k]) then [] else [s[k]]) + Drop(s[k + 1..], p)
  {
    var a, x, b := s[..k], s[k], s[k + 1..];
    assert s == (a + [x]) + b;
    DropInTheMiddle(a, x, b, p);
  }

  lemma DropInTheMiddle<T>(a: seq<T>, x: T, b: seq<T>, p: T -> bool)
    ensures Drop((a + [x]) + b, p) == Drop(a, p) + (if p(x) then [] else [x]) + Drop(b, p)
  {
    DropAppend(a + [x], b, p);
    DropSnoc(a, x, p);
  }

  function DeleteAt<T>(s: seq<T>, i: int): (r: seq<T>)
  {
    if 0 <= i < |s| then s[..i] + s[i + 1..] else s
  }

  lemma DeleteAtShifts<T>(s: seq<T>, i: nat)
    requires i < |s|
    ensures |DeleteAt(s, i)| == |s| - 1
    ensures forall j :: 0 <= j < |s| - 1 ==> DeleteAt(s, i)[j] == s[if j < i then j else j + 1]
  {
  }

  lemma DeleteAtKeepsDistinct<T>(s: seq<T>, i: nat)
    requires NoDuplicates(s)
    ensures NoDuplicates(DeleteAt(s, i))
  {
  }

  /** Deletes at every index of `idx`, taking the last index first. */
  function DeleteDown<T>(s: seq<T>, idx: seq<nat>): (r: seq<T>)
  {
    if idx == [] then s else DeleteAt(DeleteDown(s, idx[1..]), idx[0])
  }

  /** The numbers `0, 1, .., n - 1`. */
  function Range(n: nat): (r: seq<nat>)
    ensures |r| == n
    ensures forall i :: 0 <= i < n ==> r[i] == i
  {
    seq(n, i => i)
  }

  ghost predicate NoDuplicates<T>(s: seq<T>) {
    forall i, j :: 0 <= i < j < |s| ==> s[i] != s[j]
  }

  lemma {:induction false} DeleteDownSnoc<T>(s: seq<T>, x: T, idx: seq<nat>)
    requires Increasing(idx, |s|)
    ensures |DeleteDown(s, idx)| == |s| - |idx|
    ensures DeleteDown(s + [x], idx) == DeleteDown(s, idx) + [x]
    ensures idx != [] ==> idx[0] < |DeleteDown(s, idx[1..])|
    ensures idx != [] ==> DeleteDown(s, idx[1..])[..idx[0] + 1] == s[..idx[0] + 1]
  {
    if idx != [] {
      var rest := idx[1..];
      DeleteDownSnoc(s, x, rest);
      if rest != [] {
        assert DeleteDown(s, rest) == DeleteAt(DeleteDown(s, rest[1..]), rest[0]);
        assert DeleteDown(s, rest)[..idx[0] + 1] == DeleteDown(s, rest[1..])[..rest[0] + 1][..idx[0] + 1];
        assert s[..rest[0] + 1][..idx[0] + 1] == s[..idx[0] + 1];
      }
    }
  }

  lemma {:induction false} DeleteDownTail<T>(s: seq<T>, idx: seq<nat>)
    requires idx != []
    ensures DeleteDown(s, idx) == DeleteDown(DeleteAt(s, idx[|idx| - 1]), idx[..|idx| - 1])
  {
    if |idx| > 1 {
      DeleteDownTail(s, idx[1..]);
      assert idx[1..][..|idx| - 2] == idx[..|idx| - 1][1..];
    }
  }

  /** Deleting a predicate's indices from the highest to the lowest is exactly the filter. */
  lemma {:induction false} DeleteDownIsDrop<T>(s: seq<T>, p: T -> bool)
    ensures DeleteDown(s, Where(s, p)) == Drop(s, p)
    ensures |Where(s, p)| + |Drop(s, p)| == |s|
  {
    if s != [] {
      var n := |s| - 1;
      var front, x := s[..n], s[n];
      var w := Where(front, p);
      assert s == front + [x];
      DeleteDownIsDrop(front, p);
      if p(x) {
        assert Where(s, p) == w + [n] && Drop(s, p) == Drop(front, p);
        DeleteDownSplit(s, w);
      } else {
        assert Where(s, p) == w && Drop(s, p) == Drop(front, p) + [x];
        WhereIsExact(front, p);
        DeleteDownSnoc(front, x, w);
      }
    }
  }

  lemma DeleteDownSplit<T>(s: seq<T>, w: seq<nat>)
    requires s != []
    ensures DeleteDown(s, w + [|s| - 1]) == DeleteDown(s[..|s| - 1], w)
  {
    var n := |s| - 1;
    var idx := w + [n];
    DeleteDownTail(s, idx);
    assert idx[..|idx| - 1] == w;
    assert DeleteAt(s, n) == s[..n];
  }

  /** Element `t` of the filtered list comes from index `t` or later, and from `t` itself
      exactly when nothing was removed up to `t`. */
  lemma {:induction false} DropShifts<T(!new)>(s: seq<T>, p: T -> bool, t: nat) returns (k: nat)
    requires t < |Drop(s, p)|
    ensures t <= k < |s| && Drop(s, p)[t] == s[k] && !p(s[k])
    ensures k == t <==> forall j :: 0 <= j <= t ==> !p(s[j])
  {
    var n := |s| - 1;
    var front := Drop(s[..n], p);
    if t < |front| {
      k := DropShifts(s[..n], p, t);
      assert forall j :: 0 <= j <= t ==> s[..n][j] == s[j];
    } else {
      k := n;
      DropLength(s[..n], p);
      if k == t {
        forall j | 0 <= j <= t ensures !p(s[j]) {
          if j < n { assert s[..n][j] == s[j]; }
        }
      } else {
        var j :| 0 <= j < n && p(s[..n][j]);
        DropLengthUpTo(s[..n], p, j);
        if forall i :: 0 <= i <= t ==> !p(s[i]) {
          assert t < j;
          DropKeepsPrefix(s[..n], p, t + 1);
          assert false;
        }
      }
    }
  }

  lemma {:induction false} DropLength<T(!new)>(s: seq<T>, p: T -> bool)
    ensures |Drop(s, p)| == |s| <==> forall j :: 0 <= j < |s| ==> !p(s[j])
  {
    if s != [] {
      var n := |s| - 1;
      DropLength(s[..n], p);
      assert forall j :: 0 <= j < n ==> s[..n][j] == s[j];
      if |Drop(s, p)| == |s| {
        forall j | 0 <= j < |s| ensures !p(s[j]) {
          if j < n { assert !p(s[..n][j]); }
        }
      }
    }
  }

  lemma DropLengthUpTo<T(!new)>(s: seq<T>, p: T -> bool, j: nat)
    requires j < |s| && p(s[j])
    ensures |Drop(s, p)| < |s|
  {
    DropLength(s, p);
  }

  /** A prefix without matches is left alone by the filter. */
  lemma {:induction false} DropKeepsPrefix<T(!new)>(s: seq<T>, p: T -> bool, t: nat)
    requires t <= |s| && forall j :: 0 <= j < t ==> !p(s[j])
    ensures t <= |Drop(s, p)| && Drop(s, p)[..t] == s[..t]
  {
    if t < |s| {
      var n := |s| - 1;
      DropKeepsPrefix(s[..n], p, t);
      assert s[..n][..t] == s[..t];
      assert Drop(s, p)[..t] == Drop(s[..n], p)[..t];
    } else {
      DropNothing(s, p);
    }
  }

  lemma {:induction false} DropNothing<T(!new)>(s: seq<T>, p: T -> bool)
    requires forall j :: 0 <= j < |s| ==> !p(s[j])
    ensures Drop(s, p) == s
  {
    if s != [] {
      DropNothing(s[..|s| - 1], p);
    }
  }

  lemma {:induction false} DropKeepsDistinct<T(!new)>(s: seq<T>, p: T -> bool)
    requires NoDuplicates(s)
    ensures NoDuplicates(Drop(s, p))
  {
    if s != [] {
      var n := |s| - 1;
      DropKeepsDistinct(s[..n], p);
      DropMembers(s[..n], p);
      assert s[n] !in s[..n];
    }
  }
}
