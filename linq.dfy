/** The `System.Linq` operators the core applies to entity sequences (`All`, `Any`, `Where`,
    `Count`, `Select`, `SelectMany`, `DistinctBy`), with the facts about them that the
    creation workflows rely on. */
module Linq {

  /** `s.All(p)`. */
  function All<T>(s: seq<T>, p: T -> bool): (b: bool)
    ensures b <==> forall i :: 0 <= i < |s| ==> p(s[i])
  {
    if s == [] then true else p(s[0]) && All(s[1..], p)
  }

  /** `s.Any(p)`. */
  function Any<T>(s: seq<T>, p: T -> bool): (b: bool)
    ensures b <==> exists i :: 0 <= i < |s| && p(s[i])
  {
    if s == [] then false else p(s[0]) || Any(s[1..], p)
  }

  /** `s.Where(p)`: the elements satisfying `p`, in their order in `s`. */
  function Where<T>(s: seq<T>, p: T -> bool): (r: seq<T>)
    ensures multiset(r) <= multiset(s)
    ensures forall i :: 0 <= i < |r| ==> p(r[i])
    ensures forall i :: 0 <= i < |s| && p(s[i]) ==> s[i] in r
  {
    if s == [] then []
    else
      assert s == [s[0]] + s[1..];
      (if p(s[0]) then [s[0]] else []) + Where(s[1..], p)
  }

  /** The elements of `s.Where(p)` are those of `s` that satisfy `p`. */
  lemma WhereMembers<T>(s: seq<T>, p: T -> bool)
    ensures forall x :: x in Where(s, p) <==> x in s && p(x)
  {
    forall x | x in Where(s, p) ensures x in s && p(x) {
      assert x in multiset(Where(s, p));
    }
  }

  /** `s.Count(p)`. */
  function Count<T>(s: seq<T>, p: T -> bool): (n: nat)
    ensures n == |Where(s, p)|
  {
    if s == [] then 0 else (if p(s[0]) then 1 else 0) + Count(s[1..], p)
  }

  /** `s.Count(p) > 0` holds exactly when some position satisfies `p`. */
  lemma {:induction false} CountAboveZero<T>(s: seq<T>, p: T -> bool)
    ensures Count(s, p) > 0 <==> exists i :: 0 <= i < |s| && p(s[i])
  {
    if s != [] {
      var t := s[1..];
      CountAboveZero(t, p);
      if !p(s[0]) && exists i :: 0 <= i < |s| && p(s[i]) {
        var i :| 0 <= i < |s| && p(s[i]);
        assert p(t[i - 1]);
      }
      if exists i :: 0 <= i < |t| && p(t[i]) {
        var i :| 0 <= i < |t| && p(t[i]);
        assert p(s[i + 1]);
      }
    }
  }

  /** `s.Count(p) > 1` holds exactly when two different positions satisfy `p`. */
  lemma {:induction false} CountAboveOne<T>(s: seq<T>, p: T -> bool)
    ensures Count(s, p) > 1 <==> exists i, j :: 0 <= i < j < |s| && p(s[i]) && p(s[j])
  {
    if s != [] {
      var t := s[1..];
      CountAboveOne(t, p);
      CountAboveZero(t, p);
      if Count(s, p) > 1 {
        if p(s[0]) {
          var j :| 0 <= j < |t| && p(t[j]);
          assert p(s[j + 1]);
        } else {
          var i, j :| 0 <= i < j < |t| && p(t[i]) && p(t[j]);
          assert s[i + 1] == t[i] && s[j + 1] == t[j];
        }
      }
      if exists i, j :: 0 <= i < j < |s| && p(s[i]) && p(s[j]) {
        var i, j :| 0 <= i < j < |s| && p(s[i]) && p(s[j]);
        if i == 0 {
          assert p(t[j - 1]);
        } else {
          assert t[i - 1] == s[i] && t[j - 1] == s[j];
        }
      }
    }
  }

  /** `s.Select(f)`. */
  function Select<T, U>(s: seq<T>, f: T -> U): seq<U> {
    seq(|s|, i requires 0 <= i < |s| => f(s[i]))
  }

  /** Projection distributes over concatenation. */
  lemma SelectConcat<T, U>(a: seq<T>, b: seq<T>, f: T -> U)
    ensures Select(a + b, f) == Select(a, f) + Select(b, f)
  {
  }

  /** `s.SelectMany(f)` over a sequence of sequences: their concatenation. */
  function SelectMany<T>(ss: seq<seq<T>>): (r: seq<T>)
    ensures forall i, j :: 0 <= i < |ss| && 0 <= j < |ss[i]| ==> ss[i][j] in r
  {
    if ss == [] then []
    else
      var rest := SelectMany(ss[1..]);
      assert forall i :: 1 <= i < |ss| ==> ss[i] == ss[1..][i - 1];
      ss[0] + rest
  }

  /** Every element of `SelectMany(ss)` comes from one of the sequences of `ss`. */
  lemma {:induction false} SelectManyOrigin<T>(ss: seq<seq<T>>, k: int)
    requires 0 <= k < |SelectMany(ss)|
    ensures exists i :: 0 <= i < |ss| && SelectMany(ss)[k] in ss[i]
  {
    if k >= |ss[0]| {
      SelectManyOrigin(ss[1..], k - |ss[0]|);
      var i :| 0 <= i < |ss[1..]| && SelectMany(ss[1..])[k - |ss[0]|] in ss[1..][i];
      assert SelectMany(ss)[k] in ss[i + 1];
    } else {
      assert SelectMany(ss)[k] == ss[0][k];
    }
  }

  /** The elements of a sequence, as a set. */
  function Elements<T>(s: seq<T>): set<T> {
    set x | x in s
  }

  /** No element occurs twice. */
  predicate Distinct<T(==)>(s: seq<T>) {
    forall i, j :: 0 <= i < j < |s| ==> s[i] != s[j]
  }

  /** No two elements share a key. */
  predicate DistinctKeys<T, K(==)>(s: seq<T>, key: T -> K) {
    forall i, j :: 0 <= i < j < |s| ==> key(s[i]) != key(s[j])
  }

  /** `s.DistinctBy(key)`: the first element of each key, in order. */
  function DistinctBy<T, K(==)>(s: seq<T>, key: T -> K): (r: seq<T>)
    ensures |r| <= |s|
    ensures forall x :: x in r ==> x in s
    decreases |s|
  {
    if s == [] then []
    else
      var prefix, last := s[..|s| - 1], s[|s| - 1];
      assert forall x :: x in prefix ==> x in s;
      DistinctBy(prefix, key) + (if Any(prefix, x => key(x) == key(last)) then [] else [last])
  }

  /** No two elements `DistinctBy` keeps share a key. */
  lemma {:induction false} DistinctByKeysDistinct<T, K>(s: seq<T>, key: T -> K)
    ensures DistinctKeys(DistinctBy(s, key), key)
    decreases |s|
  {
    if s != [] {
      var prefix, last := s[..|s| - 1], s[|s| - 1];
      var kept := DistinctBy(prefix, key);
      DistinctByKeysDistinct(prefix, key);
      if !Any(prefix, x => key(x) == key(last)) {
        assert DistinctBy(s, key) == kept + [last];
        assert forall x :: x in kept ==> key(x) != key(last);
      }
    }
  }

  /** Every key of the input is the key of an element `DistinctBy` keeps. */
  lemma {:induction false} DistinctByCoversKeys<T, K>(s: seq<T>, key: T -> K)
    ensures forall i :: 0 <= i < |s| ==> key(s[i]) in Select(DistinctBy(s, key), key)
    decreases |s|
  {
    if s != [] {
      var prefix, last := s[..|s| - 1], s[|s| - 1];
      var kept := DistinctBy(prefix, key);
      DistinctByCoversKeys(prefix, key);
      var seen := Any(prefix, x => key(x) == key(last));
      var tail := if seen then [] else [last];
      assert DistinctBy(s, key) == kept + tail;
      SelectConcat(kept, tail, key);
      var keys := Select(DistinctBy(s, key), key);
      assert forall k :: k in Select(kept, key) ==> k in keys;
      forall i | 0 <= i < |s| ensures key(s[i]) in keys {
        if i < |prefix| {
          assert s[i] == prefix[i];
        } else if seen {
          var j :| 0 <= j < |prefix| && key(prefix[j]) == key(last);
        } else {
          assert keys[|kept|] == key(last);
        }
      }
    }
  }

  /** Filtering a sequence none of whose elements pass gives nothing. */
  lemma {:induction false} WhereNone<T>(s: seq<T>, p: T -> bool)
    requires forall i :: 0 <= i < |s| ==> !p(s[i])
    ensures Where(s, p) == []
  {
    if s != [] {
      assert forall i :: 0 <= i < |s[1..]| ==> s[1..][i] == s[i + 1];
      WhereNone(s[1..], p);
    }
  }

  /** Filtering a sequence all of whose elements pass gives the sequence itself. */
  lemma {:induction false} WhereAll<T>(s: seq<T>, p: T -> bool)
    requires forall i :: 0 <= i < |s| ==> p(s[i])
    ensures Where(s, p) == s
  {
    if s != [] {
      assert forall i :: 0 <= i < |s[1..]| ==> s[1..][i] == s[i + 1];
      WhereAll(s[1..], p);
      assert s == [s[0]] + s[1..];
    }
  }

  /** `Where` distributes over concatenation, which is what "in store order" means. */
  lemma {:induction false} WhereConcat<T>(a: seq<T>, b: seq<T>, p: T -> bool)
    ensures Where(a + b, p) == Where(a, p) + Where(b, p)
  {
    if a == [] {
      assert a + b == b;
    } else {
      assert (a + b)[1..] == a[1..] + b;
      WhereConcat(a[1..], b, p);
    }
  }

  /** A set holds at most as many elements as the sequence it comes from, and exactly as many
      when the sequence has no repetition. */
  lemma {:induction false} ElementsCardinality<T>(s: seq<T>)
    ensures |Elements(s)| <= |s|
    ensures |Elements(s)| == |s| <==> Distinct(s)
  {
    if s != [] {
      var t := s[1..];
      ElementsCardinality(t);
      assert Elements(s) == {s[0]} + Elements(t) by {
        forall x ensures x in Elements(s) <==> x in {s[0]} + Elements(t) {
          assert x in s <==> x == s[0] || x in t;
        }
      }
      if s[0] in t {
        assert Elements(s) == Elements(t);
        var k :| 0 <= k < |t| && t[k] == s[0];
        assert s[0] == s[k + 1];
      } else {
        assert |Elements(s)| == 1 + |Elements(t)|;
        if Distinct(t) {
          forall i, j | 0 <= i < j < |s| ensures s[i] != s[j] {
            if i == 0 { assert s[j] == t[j - 1]; } else { assert s[i] == t[i - 1] && s[j] == t[j - 1]; }
          }
        } else {
          var i, j :| 0 <= i < j < |t| && t[i] == t[j];
          assert s[i + 1] == s[j + 1];
        }
      }
    }
  }

  /** Filtering keeps keys distinct. */
  lemma {:induction false} WhereKeepsDistinctKeys<T, K>(s: seq<T>, key: T -> K, p: T -> bool)
    requires DistinctKeys(s, key)
    ensures DistinctKeys(Where(s, p), key)
  {
    if s != [] {
      var t := s[1..];
      assert DistinctKeys(t, key) by {
        forall i, j | 0 <= i < j < |t| ensures key(t[i]) != key(t[j]) {
          assert t[i] == s[i + 1] && t[j] == s[j + 1];
        }
      }
      WhereKeepsDistinctKeys(t, key, p);
      var w := Where(t, p);
      if p(s[0]) {
        var r := [s[0]] + w;
        forall i, j | 0 <= i < j < |r| ensures key(r[i]) != key(r[j]) {
          if i == 0 {
            assert r[j] in multiset(w);
            var k :| 0 <= k < |t| && t[k] == r[j];
            assert s[k + 1] == r[j];
          }
        }
      }
    }
  }

    /** A key belongs to some row by position exactly when it belongs to some row. */
  lemma KeysPresent<T>(rows: seq<T>, key: T -> int, wanted: seq<int>)
    ensures (forall x :: x in wanted ==> exists i :: 0 <= i < |rows| && key(rows[i]) == x) <==>
            (forall x :: x in wanted ==> exists r :: r in rows && key(r) == x)
  {
    if forall x :: x in wanted ==> exists i :: 0 <= i < |rows| && key(rows[i]) == x {
      forall x | x in wanted ensures exists r :: r in rows && key(r) == x {
        var i :| 0 <= i < |rows| && key(rows[i]) == x;
        assert rows[i] in rows;
      }
    }
    if forall x :: x in wanted ==> exists r :: r in rows && key(r) == x {
      forall x | x in wanted ensures exists i :: 0 <= i < |rows| && key(rows[i]) == x {
        var r :| r in rows && key(r) == x;
        var i :| 0 <= i < |rows| && rows[i] == r;
      }
    }
  }

/** Loading rows by a list of wanted keys, as the workflows do: when the keys of the rows are
      distinct, the number of rows found equals the number of keys asked for exactly when the
      list has no repetition and every key in it belongs to some row. */
  lemma WhereByKeyCount<T>(rows: seq<T>, key: T -> int, p: T -> bool, wanted: seq<int>)
    requires DistinctKeys(rows, key)
    requires forall r :: p(r) == (key(r) in wanted)
    ensures |Where(rows, p)| == |wanted| <==>
              Distinct(wanted) && forall x :: x in wanted ==> exists i :: 0 <= i < |rows| && key(rows[i]) == x
  {
    var found := Where(rows, p);
    var foundKeys := Select(found, key);
    WhereKeepsDistinctKeys(rows, key, p);
    assert Distinct(foundKeys);
    ElementsCardinality(foundKeys);
    ElementsCardinality(wanted);
    var present := set i | 0 <= i < |rows| :: key(rows[i]);
    assert Elements(foundKeys) == Elements(wanted) * present by {
      forall x ensures x in Elements(foundKeys) <==> x in Elements(wanted) * present {
        if x in Elements(foundKeys) {
          var k :| 0 <= k < |found| && foundKeys[k] == x;
          assert found[k] in multiset(found);
        }
        if x in Elements(wanted) * present {
          var i :| 0 <= i < |rows| && key(rows[i]) == x;
          assert rows[i] in found;
          var k :| 0 <= k < |found| && found[k] == rows[i];
          assert foundKeys[k] == x;
        }
      }
    }
    var missing := Elements(wanted) - Elements(foundKeys);
    assert Elements(wanted) == Elements(foundKeys) + missing;
    assert |Elements(wanted)| == |Elements(foundKeys)| + |missing|;
    if |found| == |wanted| {
      assert missing == {};
      forall x | x in wanted ensures exists i :: 0 <= i < |rows| && key(rows[i]) == x {
        assert x in Elements(wanted);
        assert x in present;
      }
    }
    if Distinct(wanted) && forall x :: x in wanted ==> exists i :: 0 <= i < |rows| && key(rows[i]) == x {
      assert missing == {};
    }
  }

  /** `DistinctBy` drops nothing exactly when no two elements share a key; that is how the
      source's `DistinctBy(...).Count() == Count` test reads. */
  lemma {:induction false} DistinctByKeepsAll<T, K>(s: seq<T>, key: T -> K)
    ensures |DistinctBy(s, key)| == |s| <==> DistinctKeys(s, key)
    decreases |s|
  {
    if s != [] {
      var prefix, last := s[..|s| - 1], s[|s| - 1];
      DistinctByKeepsAll(prefix, key);
      if Any(prefix, x => key(x) == key(last)) {
        var i :| 0 <= i < |prefix| && key(prefix[i]) == key(last);
        assert key(s[i]) == key(s[|s| - 1]);
      } else {
        if DistinctKeys(prefix, key) {
          forall i, j | 0 <= i < j < |s| ensures key(s[i]) != key(s[j]) {
            if j == |s| - 1 {
              assert s[i] == prefix[i];
            } else {
              assert s[i] == prefix[i] && s[j] == prefix[j];
            }
          }
        } else {
          var i, j :| 0 <= i < j < |prefix| && key(prefix[i]) == key(prefix[j]);
          assert s[i] == prefix[i] && s[j] == prefix[j];
        }
      }
    }
  }
}
