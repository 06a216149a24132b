// The `std::vector` edits the recognition core performs in place: insertion
// before a position, erasure of a position, and erasure of every element a
// mask marks.

module Sequences {

  /** `v.insert(v.begin() + i, x)`. */
  function Insert<T>(s: seq<T>, i: nat, x: T): (r: seq<T>)
    requires i <= |s|
    ensures |r| == |s| + 1 && r[i] == x
    ensures forall k :: 0 <= k < i ==> r[k] == s[k]
    ensures forall k :: i < k < |r| ==> r[k] == s[k - 1]
  {
    s[..i] + [x] + s[i..]
  }

  /** `v.erase(v.begin() + i)`. */
  function Remove<T>(s: seq<T>, i: nat): (r: seq<T>)
    requires i < |s|
    ensures |r| == |s| - 1
    ensures forall k :: 0 <= k < i ==> r[k] == s[k]
    ensures forall k :: i <= k < |r| ==> r[k] == s[k + 1]
  {
    s[..i] + s[i + 1..]
  }

  /** The elements of `s` whose flag in `keep` is set, in order. */
  function Select<T>(s: seq<T>, keep: seq<bool>): (r: seq<T>)
    requires |keep| == |s|
    decreases |s|
  {
    if s == [] then [] else (if keep[0] then [s[0]] else []) + Select(s[1..], keep[1..])
  }

  /** Insertion as the prefix, the new element and the suffix. */
  lemma InsertSplits<T>(s: seq<T>, i: nat, x: T)
    requires i <= |s|
    ensures s[..i] + s[i..] == s
    ensures Insert(s, i, x) == s[..i] + ([x] + s[i..])
  {
  }

  /** Erasing what was just inserted gives back the original vector. */
  lemma RemoveInserted<T>(s: seq<T>, i: nat, x: T)
    requires i <= |s|
    ensures Remove(Insert(s, i, x), i) == s
  {
    assert Remove(Insert(s, i, x), i) == s[..i] + s[i..];
    assert s[..i] + s[i..] == s;
  }

  /** Re-inserting an erased element at its place gives back the original vector. */
  lemma InsertRemoved<T>(s: seq<T>, i: nat)
    requires i < |s|
    ensures Insert(Remove(s, i), i, s[i]) == s
  {
    var r := Insert(Remove(s, i), i, s[i]);
    assert forall k :: 0 <= k < |s| ==> r[k] == s[k];
  }

  lemma InsertMultiset<T>(s: seq<T>, i: nat, x: T)
    requires i <= |s|
    ensures multiset(Insert(s, i, x)) == multiset(s) + multiset{x}
  {
    assert s == s[..i] + s[i..];
    calc {
      multiset(Insert(s, i, x));
      multiset(s[..i]) + multiset{x} + multiset(s[i..]);
      multiset(s[..i] + s[i..]) + multiset{x};
    }
  }

  lemma RemoveMultiset<T>(s: seq<T>, i: nat)
    requires i < |s|
    ensures multiset(Remove(s, i)) + multiset{s[i]} == multiset(s)
  {
    InsertRemoved(s, i);
    InsertMultiset(Remove(s, i), i, s[i]);
  }

  /** Every selected element comes from `s`, and the unselected ones are gone. */
  lemma {:induction false} SelectMembers<T>(s: seq<T>, keep: seq<bool>)
    requires |keep| == |s|
    ensures forall x :: x in Select(s, keep) ==> exists k :: 0 <= k < |s| && keep[k] && s[k] == x
    decreases |s|
  {
    if s != [] {
      SelectMembers(s[1..], keep[1..]);
      forall x | x in Select(s, keep)
        ensures exists k :: 0 <= k < |s| && keep[k] && s[k] == x
      {
        if keep[0] && x == s[0] {
          assert keep[0] && s[0] == x;
        } else {
          assert x in Select(s[1..], keep[1..]);
          var k :| 0 <= k < |s| - 1 && keep[1..][k] && s[1..][k] == x;
          assert keep[k + 1] && s[k + 1] == x;
        }
      }
    }
  }

  /** Selecting everything changes nothing. */
  lemma {:induction false} SelectAll<T>(s: seq<T>, keep: seq<bool>)
    requires |keep| == |s| && forall k :: 0 <= k < |s| ==> keep[k]
    ensures Select(s, keep) == s
    decreases |s|
  {
    if s != [] {
      SelectAll(s[1..], keep[1..]);
      assert [s[0]] + s[1..] == s;
    }
  }

  /** Selection from a concatenation. */
  lemma {:induction false} SelectAppend<T>(a: seq<T>, b: seq<T>, ka: seq<bool>, kb: seq<bool>)
    requires |ka| == |a| && |kb| == |b|
    ensures Select(a + b, ka + kb) == Select(a, ka) + Select(b, kb)
    decreases |a|
  {
    if a == [] {
      assert a + b == b && ka + kb == kb;
    } else {
      var head := if ka[0] then [a[0]] else [];
      assert (a + b)[0] == a[0] && (ka + kb)[0] == ka[0];
      assert (a + b)[1..] == a[1..] + b && (ka + kb)[1..] == ka[1..] + kb;
      SelectAppend(a[1..], b, ka[1..], kb);
      calc {
        Select(a + b, ka + kb);
        head + Select(a[1..] + b, ka[1..] + kb);
        head + (Select(a[1..], ka[1..]) + Select(b, kb));
        { AppendAssoc(head, Select(a[1..], ka[1..]), Select(b, kb)); }
        Select(a, ka) + Select(b, kb);
      }
    }
  }

  /** The number of set flags. */
  function Count(keep: seq<bool>): (n: nat)
    ensures n <= |keep|
  {
    if keep == [] then 0 else (if keep[0] then 1 else 0) + Count(keep[1..])
  }

  /** Selection keeps exactly as many elements as there are set flags. */
  lemma {:induction false} SelectLength<T>(s: seq<T>, keep: seq<bool>)
    requires |keep| == |s|
    ensures |Select(s, keep)| == Count(keep)
    decreases |s|
  {
    if s != [] {
      SelectLength(s[1..], keep[1..]);
    }
  }

  /** A cleared flag makes the selection shorter than the sequence. */
  lemma {:induction false} CountBelowLength(keep: seq<bool>, k: nat)
    requires k < |keep| && !keep[k]
    ensures Count(keep) < |keep|
    decreases |keep|
  {
    if k > 0 {
      CountBelowLength(keep[1..], k - 1);
    }
  }

  lemma AppendAssoc<T>(a: seq<T>, b: seq<T>, c: seq<T>)
    ensures a + b + c == a + (b + c)
  {
  }

  lemma RemoveMiddle<T>(a: seq<T>, x: T, b: seq<T>)
    ensures Remove(a + [x] + b, |a|) == a + b
  {
    assert (a + [x] + b)[..|a|] == a && (a + [x] + b)[|a| + 1..] == b;
  }

  lemma ReplaceMiddle<T>(a: seq<T>, x: T, b: seq<T>, y: T)
    ensures (a + [x] + b)[|a| := y] == a + ([y] + b)
  {
  }

  /** Selection from position `i` on: the element at `i` if kept, then the rest. */
  lemma SelectStep<T>(s: seq<T>, keep: seq<bool>, i: nat)
    requires |keep| == |s| && i < |s|
    ensures Select(s[i..], keep[i..]) == (if keep[i] then [s[i]] else []) + Select(s[i + 1..], keep[i + 1..])
  {
    assert s[i..][1..] == s[i + 1..] && keep[i..][1..] == keep[i + 1..];
  }

  /**
   * The state of a top-down deletion loop that has decided the positions
   * from `i` on, last first: the untouched prefix, then what was kept of the rest.
   */
  function DeletedFrom<T>(s: seq<T>, keep: seq<bool>, i: nat): (r: seq<T>)
    requires |keep| == |s| && i <= |s|
    ensures |r| >= i && forall k :: 0 <= k < i ==> r[k] == s[k]
    decreases |s| - i
  {
    if i == |s| then s
    else
      var d := DeletedFrom(s, keep, i + 1);
      if keep[i] then d else Remove(d, i)
  }

  /** Deciding position `i - 1` keeps it or erases it from the loop state. */
  lemma DeletedFromStep<T>(s: seq<T>, keep: seq<bool>, i: nat)
    requires |keep| == |s| && 0 < i <= |s|
    ensures |DeletedFrom(s, keep, i)| >= i && DeletedFrom(s, keep, i)[i - 1] == s[i - 1]
    ensures DeletedFrom(s, keep, i - 1) ==
      if keep[i - 1] then DeletedFrom(s, keep, i) else Remove(DeletedFrom(s, keep, i), i - 1)
  {
  }

  /** The loop state is the untouched prefix followed by the selection from the decided part. */
  lemma {:induction false} DeletedFromSelects<T>(s: seq<T>, keep: seq<bool>, i: nat)
    requires |keep| == |s| && i <= |s|
    ensures DeletedFrom(s, keep, i) == s[..i] + Select(s[i..], keep[i..])
    decreases |s| - i
  {
    if i == |s| {
      assert s[..i] == s && s[i..] == [] && keep[i..] == [];
    } else {
      DeletedFromSelects(s, keep, i + 1);
      SelectStep(s, keep, i);
      var rest := Select(s[i + 1..], keep[i + 1..]);
      var d := DeletedFrom(s, keep, i + 1);
      assert d == s[..i] + [s[i]] + rest by {
        assert s[..i + 1] == s[..i] + [s[i]];
      }
      if keep[i] {
        calc {
          DeletedFrom(s, keep, i);
          d;
          { AppendAssoc(s[..i], [s[i]], rest); }
          s[..i] + ([s[i]] + rest);
          s[..i] + Select(s[i..], keep[i..]);
        }
      } else {
        calc {
          DeletedFrom(s, keep, i);
          Remove(d, i);
          { RemoveMiddle(s[..i], s[i], rest); }
          s[..i] + rest;
          s[..i] + Select(s[i..], keep[i..]);
        }
      }
    }
  }

  lemma DeletedFromAll<T>(s: seq<T>, keep: seq<bool>)
    requires |keep| == |s|
    ensures DeletedFrom(s, keep, |s|) == s && DeletedFrom(s, keep, 0) == Select(s, keep)
  {
    DeletedFromSelects(s, keep, 0);
    assert s[..0] == [] && s[0..] == s && keep[0..] == keep;
  }

  /**
   * The state of a top-down loop that rewrites or erases each position,
   * last first: the untouched prefix of `s`, then the kept elements of the
   * rewritten `t`.
   */
  function DecidedFrom<T>(s: seq<T>, t: seq<T>, keep: seq<bool>, i: nat): (r: seq<T>)
    requires |s| == |t| == |keep| && i <= |s|
    ensures |r| >= i && forall k :: 0 <= k < i ==> r[k] == s[k]
    decreases |s| - i
  {
    if i == |s| then s
    else
      var d := DecidedFrom(s, t, keep, i + 1);
      if keep[i] then d[i := t[i]] else Remove(d, i)
  }

  /** Deciding position `i - 1` rewrites it or erases it from the loop state. */
  lemma DecidedFromStep<T>(s: seq<T>, t: seq<T>, keep: seq<bool>, i: nat)
    requires |s| == |t| == |keep| && 0 < i <= |s|
    ensures |DecidedFrom(s, t, keep, i)| >= i && DecidedFrom(s, t, keep, i)[..i] == s[..i]
    ensures DecidedFrom(s, t, keep, i - 1) ==
      if keep[i - 1] then DecidedFrom(s, t, keep, i)[i - 1 := t[i - 1]]
      else Remove(DecidedFrom(s, t, keep, i), i - 1)
  {
  }

  /** The loop state is the untouched prefix followed by the selection from the rewritten part. */
  lemma {:induction false} DecidedFromSelects<T>(s: seq<T>, t: seq<T>, keep: seq<bool>, i: nat)
    requires |s| == |t| == |keep| && i <= |s|
    ensures DecidedFrom(s, t, keep, i) == s[..i] + Select(t[i..], keep[i..])
    decreases |s| - i
  {
    if i == |s| {
      assert s[..i] == s && t[i..] == [] && keep[i..] == [];
    } else {
      DecidedFromSelects(s, t, keep, i + 1);
      SelectStep(t, keep, i);
      var rest := Select(t[i + 1..], keep[i + 1..]);
      var d := DecidedFrom(s, t, keep, i + 1);
      assert d == s[..i] + [s[i]] + rest by {
        assert s[..i + 1] == s[..i] + [s[i]];
      }
      if keep[i] {
        calc {
          DecidedFrom(s, t, keep, i);
          d[i := t[i]];
          { ReplaceMiddle(s[..i], s[i], rest, t[i]); }
          s[..i] + ([t[i]] + rest);
          s[..i] + Select(t[i..], keep[i..]);
        }
      } else {
        calc {
          DecidedFrom(s, t, keep, i);
          Remove(d, i);
          { RemoveMiddle(s[..i], s[i], rest); }
          s[..i] + rest;
          s[..i] + Select(t[i..], keep[i..]);
        }
      }
    }
  }

  lemma DecidedFromAll<T>(s: seq<T>, t: seq<T>, keep: seq<bool>)
    requires |s| == |t| == |keep|
    ensures DecidedFrom(s, t, keep, |s|) == s && DecidedFrom(s, t, keep, 0) == Select(t, keep)
  {
    DecidedFromSelects(s, t, keep, 0);
    assert s[..0] == [] && t[0..] == t && keep[0..] == keep;
  }

  /** A kept element survives the selection. */
  lemma {:induction false} SelectKeeps<T>(s: seq<T>, keep: seq<bool>, k: nat)
    requires |keep| == |s| && k < |s| && keep[k]
    ensures s[k] in Select(s, keep)
    decreases k
  {
    if k > 0 {
      SelectKeeps(s[1..], keep[1..], k - 1);
    }
  }

  /** Every flag of the first `n` set: the count of that prefix is `n`. */
  lemma {:induction false} CountAllSet(keep: seq<bool>, n: nat)
    requires n <= |keep| && forall k :: 0 <= k < n ==> keep[k]
    ensures Count(keep[..n]) == n
    decreases n
  {
    if n > 0 {
      assert keep[..n][1..] == keep[1..][..n - 1];
      CountAllSet(keep[1..], n - 1);
    }
  }

  /** Every element stands in relation `before` to every later one. */
  predicate InOrder<T>(s: seq<T>, before: (T, T) -> bool)
  {
    forall i, j :: 0 <= i < j < |s| ==> before(s[i], s[j])
  }

  /** A relation that holds between every earlier and later element still holds after a selection. */
  lemma {:induction false} SelectKeepsOrder<T>(s: seq<T>, keep: seq<bool>, before: (T, T) -> bool)
    requires |keep| == |s| && InOrder(s, before)
    ensures InOrder(Select(s, keep), before)
    decreases |s|
  {
    if s != [] {
      var tail := Select(s[1..], keep[1..]);
      forall i, j | 0 <= i < j < |s| - 1
        ensures before(s[1..][i], s[1..][j])
      {
        assert s[1..][i] == s[i + 1] && s[1..][j] == s[j + 1];
      }
      SelectKeepsOrder(s[1..], keep[1..], before);
      SelectMembers(s[1..], keep[1..]);
      if keep[0] {
        var r := [s[0]] + tail;
        assert Select(s, keep) == r;
        forall i, j | 0 <= i < j < |r|
          ensures before(r[i], r[j])
        {
          if i == 0 {
            assert r[j] == tail[j - 1];
            assert r[j] in tail;
            var k :| 0 <= k < |s| - 1 && keep[1..][k] && s[1..][k] == r[j];
            assert before(s[0], s[k + 1]);
          } else {
            assert r[i] == tail[i - 1] && r[j] == tail[j - 1];
          }
        }
      } else {
        assert Select(s, keep) == tail;
      }
    }
  }
}
