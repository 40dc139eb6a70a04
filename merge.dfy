/** The deduplicating merge of the main screen: the files still being copied
    into the secured directory (the queue) come first, followed by the files
    already in the internal directory whose name is not among the queued ones.
    A large video being copied can show up in both lists; the queued entry
    wins. */
module Merge {
  import opened Items

  /** The set of file names occurring in `q`. */
  function Names(q: seq<InternalItem>): (r: set<string>)
    ensures forall k :: 0 <= k < |q| ==> q[k].fileName in r
    ensures forall n :: n in r ==> exists k :: 0 <= k < |q| && q[k].fileName == n
  {
    if q == [] then {}
    else
      var rest := Names(q[1..]);
      assert forall n :: n in rest ==> exists k :: 1 <= k < |q| && q[k].fileName == n by {
        forall n | n in rest ensures exists k :: 1 <= k < |q| && q[k].fileName == n {
          var j :| 0 <= j < |q[1..]| && q[1..][j].fileName == n;
          assert q[j + 1].fileName == n;
        }
      }
      {q[0].fileName} + rest
  }

  /** The items of `i` whose name is not in `names`, in the order of `i`. */
  function WithoutNames(i: seq<InternalItem>, names: set<string>): (r: seq<InternalItem>)
    ensures |r| <= |i|
    ensures forall x :: x in r ==> x in i && x.fileName !in names
    ensures forall x :: x in i && x.fileName !in names ==> x in r
  {
    if i == [] then []
    else if i[0].fileName in names then WithoutNames(i[1..], names)
    else [i[0]] + WithoutNames(i[1..], names)
  }

  /** The queue list followed by the internal items whose name is not queued. */
  function DeleteDuplicates(q: seq<InternalItem>, i: seq<InternalItem>): (r: seq<InternalItem>)
    ensures |q| <= |r| && r[..|q|] == q
    ensures forall k :: |q| <= k < |r| ==> r[k].fileName !in Names(q)
    ensures forall x :: x in r <==> x in q || (x in i && x.fileName !in Names(q))
  {
    var kept := WithoutNames(i, Names(q));
    assert forall k :: |q| <= k < |q + kept| ==> (q + kept)[k] == kept[k - |q|];
    q + kept
  }

  /** Number of items of `i` whose name is not in `names`. */
  function CountKept(i: seq<InternalItem>, names: set<string>): nat
  {
    if i == [] then 0
    else (if i[0].fileName in names then 0 else 1) + CountKept(i[1..], names)
  }

  /** No two items of `s` share a file name. */
  predicate UniqueNames(s: seq<InternalItem>)
  {
    forall j, k :: 0 <= j < k < |s| ==> s[j].fileName != s[k].fileName
  }

  /** Filtering distributes over concatenation, so the kept items of `i`
      appear in the result in the same relative order as in `i`. */
  lemma {:induction false} WithoutNamesAppend(a: seq<InternalItem>, b: seq<InternalItem>, names: set<string>)
    ensures WithoutNames(a + b, names) == WithoutNames(a, names) + WithoutNames(b, names)
  {
    if a != [] {
      assert (a + b)[0] == a[0];
      assert (a + b)[1..] == a[1..] + b;
      WithoutNamesAppend(a[1..], b, names);
    } else {
      assert a + b == b;
    }
  }

  /** An item whose name is not excluded is kept, alone; one whose name is
      excluded is dropped. Together with WithoutNamesAppend this determines
      WithoutNames on every list. */
  lemma WithoutNamesSingle(x: InternalItem, names: set<string>)
    ensures WithoutNames([x], names) == if x.fileName in names then [] else [x]
  {
    assert [x][1..] == [];
  }

  /** Nothing is dropped when no name of `i` is excluded. */
  lemma {:induction false} WithoutNamesKeepsAll(i: seq<InternalItem>, names: set<string>)
    requires forall k :: 0 <= k < |i| ==> i[k].fileName !in names
    ensures WithoutNames(i, names) == i
  {
    if i != [] {
      WithoutNamesKeepsAll(i[1..], names);
      assert [i[0]] + i[1..] == i;
    }
  }

  /** Everything is dropped when every name of `i` is excluded. */
  lemma {:induction false} WithoutNamesDropsAll(i: seq<InternalItem>, names: set<string>)
    requires forall k :: 0 <= k < |i| ==> i[k].fileName in names
    ensures WithoutNames(i, names) == []
  {
    if i != [] {
      WithoutNamesDropsAll(i[1..], names);
    }
  }

  /** The result is as long as the queue plus the number of internal items
      whose name is not queued. */
  lemma {:induction false} MergeLength(q: seq<InternalItem>, i: seq<InternalItem>)
    ensures |DeleteDuplicates(q, i)| == |q| + CountKept(i, Names(q))
  {
    KeptLength(i, Names(q));
  }

  /** The filter keeps as many items as CountKept counts. */
  lemma {:induction false} KeptLength(i: seq<InternalItem>, names: set<string>)
    ensures |WithoutNames(i, names)| == CountKept(i, names)
  {
    if i != [] {
      KeptLength(i[1..], names);
    }
  }

  /** With nothing in the queue the internal list is shown unchanged. */
  lemma EmptyQueue(i: seq<InternalItem>)
    ensures DeleteDuplicates([], i) == i
  {
    WithoutNamesKeepsAll(i, Names([]));
  }

  /** When no name is in both lists the result is the plain concatenation. */
  lemma DisjointNames(q: seq<InternalItem>, i: seq<InternalItem>)
    requires Names(q) !! Names(i)
    ensures DeleteDuplicates(q, i) == q + i
  {
    WithoutNamesKeepsAll(i, Names(q));
  }

  /** Merging the same queue again into an already merged list changes
      nothing. */
  lemma Idempotent(q: seq<InternalItem>, i: seq<InternalItem>)
    ensures DeleteDuplicates(q, DeleteDuplicates(q, i)) == DeleteDuplicates(q, i)
  {
    var names := Names(q);
    var kept := WithoutNames(i, names);
    assert DeleteDuplicates(q, i) == q + kept;
    WithoutNamesAppend(q, kept, names);
    WithoutNamesDropsAll(q, names);
    assert forall k :: 0 <= k < |kept| ==> kept[k].fileName !in names by {
      forall k | 0 <= k < |kept| ensures kept[k].fileName !in names {
        assert kept[k] in kept;
      }
    }
    WithoutNamesKeepsAll(kept, names);
    calc {
      DeleteDuplicates(q, q + kept);
      q + WithoutNames(q + kept, names);
      q + ([] + kept);
      { assert [] + kept == kept; }
      q + kept;
    }
  }

  /** Lists that each name a file at most once merge into a list that names
      every file at most once. */
  lemma UniqueAfterMerge(q: seq<InternalItem>, i: seq<InternalItem>)
    requires UniqueNames(q) && UniqueNames(i)
    ensures UniqueNames(DeleteDuplicates(q, i))
  {
    var kept := WithoutNames(i, Names(q));
    KeptUnique(i, Names(q));
    var r := q + kept;
    forall j, k | 0 <= j < k < |r| ensures r[j].fileName != r[k].fileName {
      if k >= |q| {
        if j < |q| {
          assert r[k] == kept[k - |q|];
          assert r[k] in kept;
        } else {
          assert r[j] == kept[j - |q|] && r[k] == kept[k - |q|];
        }
      }
    }
  }

  /** Filtering a list that names each file at most once keeps it so. */
  lemma {:induction false} KeptUnique(i: seq<InternalItem>, names: set<string>)
    requires UniqueNames(i)
    ensures UniqueNames(WithoutNames(i, names))
  {
    if i != [] {
      var rest := WithoutNames(i[1..], names);
      assert UniqueNames(i[1..]) by {
        forall j, k | 0 <= j < k < |i[1..]| ensures i[1..][j].fileName != i[1..][k].fileName {
          assert i[1..][j] == i[j + 1] && i[1..][k] == i[k + 1];
        }
      }
      KeptUnique(i[1..], names);
      if i[0].fileName !in names {
        var r := [i[0]] + rest;
        forall j, k | 0 <= j < k < |r| ensures r[j].fileName != r[k].fileName {
          if j == 0 {
            assert r[k] == rest[k - 1];
            assert r[k] in i[1..];
            var m :| 0 <= m < |i[1..]| && i[1..][m] == r[k];
            assert i[m + 1] == r[k];
          } else {
            assert r[j] == rest[j - 1] && r[k] == rest[k - 1];
          }
        }
      }
    }
  }
}
