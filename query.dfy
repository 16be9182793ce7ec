/**
 * The two pieces of SQL semantics the plugin's queries rely on: ORDER BY a
 * numeric column, and the limitfrom/limitnum window of Moodle's get_records
 * calls (a limitnum of 0 means "no limit"). Ties in the ORDER BY column come
 * out in an order the database chooses; this model keeps one such order.
 */
module Query {

  predicate SortedBy<T>(s: seq<T>, key: T -> int)
  {
    forall i, j :: 0 <= i < j < |s| ==> key(s[i]) <= key(s[j])
  }

  function Insert<T>(t: seq<T>, x: T, key: T -> int): (r: seq<T>)
    requires SortedBy(t, key)
    ensures SortedBy(r, key)
    ensures multiset(r) == multiset(t) + multiset{x}
    ensures |r| == |t| + 1
  {
    if t == [] then [x]
    else if key(t[|t| - 1]) <= key(x) then t + [x]
    else
      var last := t[|t| - 1];
      var init := t[..|t| - 1];
      assert t == init + [last];
      var r' := Insert(init, x, key);
      assert forall k :: 0 <= k < |r'| ==> key(r'[k]) <= key(last) by {
        forall k | 0 <= k < |r'| ensures key(r'[k]) <= key(last) {
          assert r'[k] in multiset(r');
          assert r'[k] == x || r'[k] in multiset(init);
          if r'[k] != x {
            var m :| 0 <= m < |init| && init[m] == r'[k];
            assert t[m] == init[m];
          }
        }
      }
      r' + [last]
  }

  /** ORDER BY key ASC: a sorted permutation of the rows. */
  function SortBy<T>(s: seq<T>, key: T -> int): (r: seq<T>)
    ensures SortedBy(r, key)
    ensures multiset(r) == multiset(s)
    ensures |r| == |s|
  {
    if s == [] then []
    else
      assert s == s[..|s| - 1] + [s[|s| - 1]];
      Insert(SortBy(s[..|s| - 1], key), s[|s| - 1], key)
  }

  /** The rows from offset `from`, at most `num` of them, all of them when `num` is 0. */
  function Window<T>(s: seq<T>, from: nat, num: nat): (r: seq<T>)
    ensures from <= |s| && num > 0 ==> |r| == if |s| - from < num then |s| - from else num
    ensures num == 0 && from <= |s| ==> |r| == |s| - from
    ensures from >= |s| ==> r == []
    ensures forall i :: 0 <= i < |r| ==> from + i < |s| && r[i] == s[from + i]
  {
    if from >= |s| then []
    else if num == 0 || |s| - from <= num then s[from..]
    else s[from..from + num]
  }

  /** A window of a sorted sequence is sorted. */
  lemma {:induction false} WindowSorted<T>(s: seq<T>, from: nat, num: nat, key: T -> int)
    requires SortedBy(s, key)
    ensures SortedBy(Window(s, from, num), key)
  {
    var r := Window(s, from, num);
    forall i, j | 0 <= i < j < |r| ensures key(r[i]) <= key(r[j]) {
      assert r[i] == s[from + i] && r[j] == s[from + j];
    }
  }

  /** A window holds only elements of the sequence. */
  lemma {:induction false} WindowWithin<T>(s: seq<T>, from: nat, num: nat)
    ensures forall x :: x in Window(s, from, num) ==> x in s
  {
    var r := Window(s, from, num);
    forall x | x in r ensures x in s {
      var i :| 0 <= i < |r| && r[i] == x;
      assert s[from + i] == x;
    }
  }

  /** A first page of a sorted sequence holds its least elements: whatever it leaves out is no smaller. */
  lemma {:induction false} WindowEarliest<T>(s: seq<T>, num: nat, key: T -> int, x: T)
    requires SortedBy(s, key) && x in s && x !in Window(s, 0, num)
    ensures forall i :: 0 <= i < |Window(s, 0, num)| ==> key(Window(s, 0, num)[i]) <= key(x)
  {
    var r := Window(s, 0, num);
    var k :| 0 <= k < |s| && s[k] == x;
    forall i | 0 <= i < |r| ensures key(r[i]) <= key(x) {
      assert r[i] == s[i];
    }
  }

  /** The first page of `s` sorted by `key`: as long as the page allows, sorted, drawn from `s`, and holding its least elements. */
  lemma {:induction false} SortedPage<T>(s: seq<T>, key: T -> int, num: nat)
    requires num >= 1
    ensures var r := Window(SortBy(s, key), 0, num);
      && |r| == (if |s| < num then |s| else num)
      && SortedBy(r, key)
      && (forall i :: 0 <= i < |r| ==> r[i] in s)
      && (forall x :: x in s && x !in r ==> forall i :: 0 <= i < |r| ==> key(r[i]) <= key(x))
  {
    var sorted := SortBy(s, key);
    var r := Window(sorted, 0, num);
    WindowSorted(sorted, 0, num, key);
    forall i | 0 <= i < |r| ensures r[i] in s {
      assert r[i] == sorted[i];
      assert sorted[i] in multiset(sorted);
    }
    forall x | x in s && x !in r ensures forall i :: 0 <= i < |r| ==> key(r[i]) <= key(x) {
      assert x in multiset(s);
      assert x in multiset(sorted);
      WindowEarliest(sorted, num, key, x);
    }
  }
}
