/**
 * Small value-level helpers shared by every module: an optional value that
 * stands for a JavaScript property that may be `undefined`, JavaScript
 * truthiness of such a string, the `filter(x => x !== v)` used on the
 * member lists of rooms, the search for the first match, and `sAdd` on a Redis set seen as a sequence.
 */
module Common {

  /** A value that may be absent (`undefined` or `null` in the source). */
  datatype Option<+T> = None | Some(value: T)

  /** JavaScript truthiness of an optional string: absent and "" are falsy. */
  predicate Truthy(o: Option<string>)
  {
    o.Some? && o.value != ""
  }

  /** Every element of the sequence occurs once (a Redis set seen as a sequence). */
  ghost predicate NoDuplicates<T>(s: seq<T>)
  {
    forall i, j :: 0 <= i < j < |s| ==> s[i] != s[j]
  }

  /**
   * Position of the first element whose key is `k`, or `|s|` when none has
   * it (a `for ... of` search that stops at the first match).
   */
  function FirstIndex<T, K(==)>(s: seq<T>, key: T -> K, k: K): (i: nat)
    ensures i <= |s|
    ensures forall j :: 0 <= j < i ==> key(s[j]) != k
    ensures i < |s| ==> key(s[i]) == k
  {
    if s == [] then 0
    else if key(s[0]) == k then 0
    else 1 + FirstIndex(s[1..], key, k)
  }

  /** `sAdd` on a Redis set seen as a sequence: a member already present is not added again. */
  function SetAdd<T(==,!new)>(s: seq<T>, x: T): (r: seq<T>)
    ensures forall y :: y in r <==> y in s || y == x
  {
    if x in s then s else s + [x]
  }

  /** Adding a new member appends it; adding a present one changes nothing; no duplicate appears. */
  lemma SetAddShape<T(!new)>(s: seq<T>, x: T)
    requires NoDuplicates(s)
    ensures x in s ==> SetAdd(s, x) == s
    ensures x !in s ==> SetAdd(s, x) == s + [x]
    ensures NoDuplicates(SetAdd(s, x))
  {
    if x !in s {
      var r := s + [x];
      forall i, j | 0 <= i < j < |r| ensures r[i] != r[j] {
        if j == |s| {
          assert r[i] == s[i];
        } else {
          assert r[i] == s[i] && r[j] == s[j];
        }
      }
    }
  }

  /** `s.filter(y => y !== x)`: drops every occurrence of `x`, keeps the rest in order. */
  function RemoveAll<T(==,!new)>(s: seq<T>, x: T): (r: seq<T>)
    ensures |r| <= |s|
    ensures forall y :: y in r <==> y in s && y != x
    ensures x !in s ==> r == s
  {
    if s == [] then []
    else if s[0] == x then RemoveAll(s[1..], x)
    else [s[0]] + RemoveAll(s[1..], x)
  }

  /** Filtering distributes over concatenation, so the survivors keep their order. */
  lemma {:induction false} RemoveAllAppend<T(!new)>(a: seq<T>, b: seq<T>, x: T)
    ensures RemoveAll(a + b, x) == RemoveAll(a, x) + RemoveAll(b, x)
  {
    if a == [] {
      assert a + b == b;
    } else {
      assert (a + b)[1..] == a[1..] + b;
      RemoveAllAppend(a[1..], b, x);
    }
  }

  /** Removing an element from a duplicate-free sequence keeps it duplicate-free. */
  lemma {:induction false} RemoveAllNoDuplicates<T(!new)>(s: seq<T>, x: T)
    requires NoDuplicates(s)
    ensures NoDuplicates(RemoveAll(s, x))
  {
    if s != [] {
      assert NoDuplicates(s[1..]) by {
        forall i, j | 0 <= i < j < |s[1..]| ensures s[1..][i] != s[1..][j] {
          assert s[1..][i] == s[i + 1] && s[1..][j] == s[j + 1];
        }
      }
      RemoveAllNoDuplicates(s[1..], x);
      if s[0] != x {
        var t := RemoveAll(s[1..], x);
        assert s[0] !in t by {
          assert s[0] !in s[1..] by {
            forall k | 0 <= k < |s[1..]| ensures s[1..][k] != s[0] {
              assert s[1..][k] == s[k + 1];
            }
          }
        }
        forall i, j | 0 <= i < j < |[s[0]] + t| ensures ([s[0]] + t)[i] != ([s[0]] + t)[j] {
          if i == 0 {
            assert ([s[0]] + t)[j] == t[j - 1];
          } else {
            assert ([s[0]] + t)[i] == t[i - 1] && ([s[0]] + t)[j] == t[j - 1];
          }
        }
      }
    }
  }

  /** In a duplicate-free sequence, the element at `k` occurs neither before nor after `k`. */
  lemma OccursOnlyAt<T>(s: seq<T>, k: nat)
    requires NoDuplicates(s) && k < |s|
    ensures s[k] !in s[..k] && s[k] !in s[k + 1..]
  {
    var a, b := s[..k], s[k + 1..];
    forall j | 0 <= j < |a| ensures a[j] != s[k] {
      assert a[j] == s[j];
    }
    forall j | 0 <= j < |b| ensures b[j] != s[k] {
      assert b[j] == s[k + 1 + j];
    }
  }

  /** Filtering out an element that occurs only at `k` removes just that position. */
  lemma {:induction false} RemoveAllAt<T(!new)>(s: seq<T>, k: nat)
    requires k < |s| && s[k] !in s[..k] && s[k] !in s[k + 1..]
    ensures RemoveAll(s, s[k]) == s[..k] + s[k + 1..]
  {
    var x, t := s[k], s[1..];
    if k == 0 {
      assert t == s[k + 1..];
      assert s[..k] + t == t;
    } else {
      assert s[0] != x by {
        assert s[0] == s[..k][0];
      }
      assert t[k - 1] == x;
      assert t[..k - 1] == s[1..k];
      assert t[k..] == s[k + 1..];
      var front, prefix := t[..k - 1], s[..k];
      assert x !in front by {
        forall j | 0 <= j < |front| ensures front[j] != x {
          assert front[j] == prefix[j + 1];
        }
      }
      RemoveAllAt(t, k - 1);
      assert [s[0]] + s[1..k] == s[..k];
    }
  }
}
