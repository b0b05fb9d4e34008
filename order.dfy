/** The byte-wise string order of Go's sort.Strings, and the sorted key list of a
    set of strings. Go compares the UTF-8 bytes of two strings; because UTF-8
    preserves the order of code points, that is the lexicographic order of the
    characters, which is what `Less` states. */
module Order {

  /** `a` sorts strictly before `b`. */
  predicate Less(a: string, b: string) {
    if |a| == 0 then |b| > 0
    else if |b| == 0 then false
    else if a[0] == b[0] then Less(a[1..], b[1..])
    else a[0] < b[0]
  }

  lemma {:induction false} LessIrreflexive(a: string)
    ensures !Less(a, a)
  {
    if |a| > 0 { LessIrreflexive(a[1..]); }
  }

  lemma {:induction false} LessAsymmetric(a: string, b: string)
    ensures !(Less(a, b) && Less(b, a))
  {
    if |a| > 0 && |b| > 0 && a[0] == b[0] { LessAsymmetric(a[1..], b[1..]); }
  }

  lemma {:induction false} LessTransitive(a: string, b: string, c: string)
    requires Less(a, b) && Less(b, c)
    ensures Less(a, c)
  {
    if |a| > 0 && a[0] == b[0] && b[0] == c[0] {
      LessTransitive(a[1..], b[1..], c[1..]);
    }
  }

  lemma {:induction false} LessTotal(a: string, b: string)
    ensures a == b || Less(a, b) || Less(b, a)
  {
    if |a| > 0 && |b| > 0 && a[0] == b[0] {
      LessTotal(a[1..], b[1..]);
      if a[1..] == b[1..] {
        assert a == [a[0]] + a[1..] && b == [b[0]] + b[1..];
      }
    }
  }

  /** Non-decreasing, as sort.Strings leaves a slice. */
  predicate Sorted(s: seq<string>) {
    forall i, j :: 0 <= i < j < |s| ==> !Less(s[j], s[i])
  }

  /** Strictly ascending: sorted and without repetitions. */
  predicate StrictlySorted(s: seq<string>) {
    forall i, j :: 0 <= i < j < |s| ==> Less(s[i], s[j])
  }

  /** Insertion of `x` into a sorted sequence. */
  function Insert(x: string, s: seq<string>): (r: seq<string>)
    requires Sorted(s)
    ensures Sorted(r) && multiset(r) == multiset(s) + multiset{x}
  {
    if |s| == 0 then [x]
    else if !Less(s[0], x) then
      assert forall j :: 0 <= j < |s| ==> !Less(s[j], x) by {
        forall j | 0 <= j < |s| ensures !Less(s[j], x) {
          LessTotal(x, s[0]);
          if Less(s[j], x) && Less(x, s[0]) { LessTransitive(s[j], x, s[0]); }
        }
      }
      [x] + s
    else
      var t := Insert(x, s[1..]);
      assert s == [s[0]] + s[1..];
      assert forall k :: 0 <= k < |t| ==> !Less(t[k], s[0]) by {
        forall k | 0 <= k < |t| ensures !Less(t[k], s[0]) {
          assert t[k] in multiset(t);
          if t[k] == x { LessAsymmetric(s[0], x); }
          else {
            assert t[k] in multiset(s[1..]);
            var j :| 0 <= j < |s[1..]| && s[1..][j] == t[k];
            assert s[j + 1] == t[k];
          }
        }
      }
      [s[0]] + t
  }

  /** sort.Strings on a value: a sorted permutation of `s`. */
  function Sort(s: seq<string>): (r: seq<string>)
    ensures Sorted(r) && multiset(r) == multiset(s)
  {
    if |s| == 0 then []
    else
      assert s == [s[0]] + s[1..];
      Insert(s[0], Sort(s[1..]))
  }

  /** No string occurs twice in `s`. */
  predicate Distinct(s: seq<string>) {
    forall i, j :: 0 <= i < j < |s| ==> s[i] != s[j]
  }

  /** Sorting a list without repetitions yields a strictly ascending list. */
  lemma SortDistinct(s: seq<string>)
    requires Distinct(s)
    ensures StrictlySorted(Sort(s))
  {
    var r := Sort(s);
    forall i, j | 0 <= i < j < |r| ensures Less(r[i], r[j]) {
      LessTotal(r[i], r[j]);
      if r[i] == r[j] {
        assert multiset(r)[r[i]] >= 2 by {
          assert r[..j] + r[j..] == r;
          assert r[i] in multiset(r[..j]);
          assert r[j] in multiset(r[j..]);
          assert multiset(r) == multiset(r[..j]) + multiset(r[j..]);
        }
        DistinctMultiplicity(s, r[i]);
      }
    }
  }

  lemma {:induction false} DistinctMultiplicity(s: seq<string>, x: string)
    requires Distinct(s)
    ensures multiset(s)[x] <= 1
  {
    if |s| > 0 {
      assert s == [s[0]] + s[1..];
      DistinctMultiplicity(s[1..], x);
      if s[0] == x {
        assert x !in s[1..];
      }
    }
  }

  /** Adding `x` to a set whose other elements have `m` as least element still
      leaves a least element: `x` if it is below `m`, `m` otherwise. */
  lemma LeastWithOneMore(ks: set<string>, x: string, m: string)
    requires x in ks && m in ks
    requires forall j :: j in ks && j != x ==> !Less(j, m)
    ensures exists k :: k in ks && forall j :: j in ks ==> !Less(j, k)
  {
    if Less(x, m) {
      forall j | j in ks ensures !Less(j, x) {
        if j == x {
          LessIrreflexive(x);
        } else if Less(j, x) {
          LessTransitive(j, x, m);
        }
      }
    } else {
      assert forall j :: j in ks ==> !Less(j, m);
    }
  }

  /** A non-empty finite set of strings has a least element. */
  lemma {:induction false} MinimumExists(ks: set<string>)
    requires ks != {}
    ensures exists k :: k in ks && forall j :: j in ks ==> !Less(j, k)
    decreases |ks|
  {
    var x :| x in ks;
    if ks == {x} {
      LessIrreflexive(x);
      assert forall j :: j in ks ==> j == x;
    } else {
      var rest := ks - {x};
      MinimumExists(rest);
      var m :| m in rest && forall j :: j in rest ==> !Less(j, m);
      assert forall j :: j in ks && j != x ==> j in rest;
      LeastWithOneMore(ks, x, m);
    }
  }

  /** The keys of a map as sort.Strings orders them: the strictly ascending
      sequence of the elements of `ks`. */
  ghost function SortedKeys(ks: set<string>): (r: seq<string>)
    ensures StrictlySorted(r) && |r| == |ks|
    ensures forall k :: k in r <==> k in ks
    decreases |ks|
  {
    if ks == {} then []
    else
      MinimumExists(ks);
      var k :| k in ks && forall j :: j in ks ==> !Less(j, k);
      var rest := SortedKeys(ks - {k});
      assert forall i :: 0 <= i < |rest| ==> Less(k, rest[i]) by {
        forall i | 0 <= i < |rest| ensures Less(k, rest[i]) {
          assert rest[i] in ks - {k};
          LessTotal(k, rest[i]);
        }
      }
      [k] + rest
  }

  /** Two strictly ascending sequences with the same elements are equal. */
  lemma {:induction false} StrictlySortedUnique(a: seq<string>, b: seq<string>)
    requires StrictlySorted(a) && StrictlySorted(b)
    requires forall k :: k in a <==> k in b
    ensures a == b
  {
    if |a| > 0 { assert a[0] in b; }
    if |b| > 0 { assert b[0] in a; }
    if |a| > 0 && |b| > 0 {
      if a[0] != b[0] {
        assert b[0] in a;
        assert a[0] in b;
        var i :| 0 <= i < |a| && a[i] == b[0];
        var j :| 0 <= j < |b| && b[j] == a[0];
        assert Less(a[0], b[0]);
        assert Less(b[0], a[0]);
        LessAsymmetric(a[0], b[0]);
      }
      LessIrreflexive(a[0]);
      forall k ensures k in a[1..] <==> k in b[1..] {
        if k in a[1..] {
          var i :| 0 <= i < |a| - 1 && a[1..][i] == k;
          assert a[i + 1] == k && k != a[0];
          assert k in a && k in b;
          var j :| 0 <= j < |b| && b[j] == k;
          assert j != 0;
          assert b[1..][j - 1] == k;
        }
        if k in b[1..] {
          var j :| 0 <= j < |b| - 1 && b[1..][j] == k;
          assert b[j + 1] == k && k != b[0];
          assert k in b && k in a;
          var i :| 0 <= i < |a| && a[i] == k;
          assert i != 0;
          assert a[1..][i - 1] == k;
        }
      }
      StrictlySortedUnique(a[1..], b[1..]);
      assert a == [a[0]] + a[1..] && b == [b[0]] + b[1..];
    }
  }
}
