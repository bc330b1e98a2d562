/** What a dump and a merge write, and why it does not matter how a month's
    events were cut into logs or how often its merge was started over. */
module Segments {
  import opened Rows
  import opened StableSort
  import opened FirstRows

  /** The rows a dump of log writes: the first of each id, stably sorted. */
  function DumpOf(log: seq<Row>): seq<Row> {
    Sort(First({}, log))
  }

  function Concat(files: seq<seq<Row>>): seq<Row> {
    if files == [] then [] else files[0] + Concat(files[1..])
  }

  /** The rows a merge of files, oldest first, writes. */
  function MergeOf(files: seq<seq<Row>>): seq<Row> {
    Sort(First({}, Concat(files)))
  }

  function DumpsOf(logs: seq<seq<Row>>): seq<seq<Row>> {
    seq(|logs|, i requires 0 <= i < |logs| => DumpOf(logs[i]))
  }

  lemma {:induction false} DumpKeepsIds(log: seq<Row>)
    ensures Ids(DumpOf(log)) == Ids(log) && Distinct(DumpOf(log)) && Sorted(DumpOf(log))
  {
    FirstKeeps({}, log);
    SortDistinct(First({}, log));
    SortSorted(First({}, log));
    assert Ids(log) - {} == Ids(log);
  }

  /** Of a dump, a merge keeps what it would keep of the log, sorted. */
  lemma {:induction false} DumpAfter(seen: set<Id>, log: seq<Row>)
    ensures First(seen, DumpOf(log)) == Sort(First(seen, log))
  {
    DumpKeepsIds(log);
    FirstOfDistinct(seen, DumpOf(log));
    WithoutOfSort(seen, First({}, log));
    WithoutOfFirst(seen, {}, log);
    assert {} + seen == seen;
  }

  lemma {:induction false} SortOfSortedHead(a: seq<Row>, b: seq<Row>)
    ensures Sort(Sort(a) + b) == Sort(a + b)
  {
    SortSorted(a);
    SortOfSorted(Sort(a));
    SortOfParts(Sort(a), b);
    SortOfParts(a, b);
  }

  /** The dumps' kept rows, once sorted, are the logs' kept rows sorted. */
  lemma {:induction false} SortOfFirstOfDumps(seen: set<Id>, logs: seq<seq<Row>>)
    ensures Sort(First(seen, Concat(DumpsOf(logs)))) == Sort(First(seen, Concat(logs)))
    decreases logs
  {
    if logs != [] {
      var d, rest := DumpOf(logs[0]), Concat(DumpsOf(logs[1..]));
      var a, b := First(seen, logs[0]), First(seen + Ids(logs[0]), Concat(logs[1..]));
      var b' := First(seen + Ids(logs[0]), rest);
      assert Concat(DumpsOf(logs)) == d + rest by {
        assert DumpsOf(logs)[0] == d;
        assert DumpsOf(logs)[1..] == DumpsOf(logs[1..]);
      }
      DumpKeepsIds(logs[0]);
      FirstOfConcat(seen, d, rest);
      FirstOfConcat(seen, logs[0], Concat(logs[1..]));
      DumpAfter(seen, logs[0]);
      SortOfFirstOfDumps(seen + Ids(logs[0]), logs[1..]);
      SortOfSortedHead(a, b');
      SortOfParts(a, b);
      SortOfParts(a, b');
    }
  }

  /** Segmentation is invisible: merging the dumps of consecutive logs writes
      the rows one dump of all of them would have written, in the same order. */
  lemma {:induction false} MergeOfDumps(logs: seq<seq<Row>>)
    ensures MergeOf(DumpsOf(logs)) == DumpOf(Concat(logs))
  {
    SortOfFirstOfDumps({}, logs);
  }

  lemma {:induction false} FirstOfSeen(seen: set<Id>, s: seq<Row>)
    requires Ids(s) <= seen
    ensures First(seen, s) == []
    decreases s
  {
    if s != [] {
      assert s[0] in s;
      assert Ids(s[1..]) <= Ids(s);
      FirstOfSeen(seen, s[1..]);
    }
  }

  /** A merge is repeatable: the month file with any files whose ids it holds,
      such as the days a crashed pass had not deleted yet, merges to itself. */
  lemma {:induction false} MergeAgain(month: seq<Row>, days: seq<seq<Row>>)
    requires Sorted(month) && Distinct(month)
    ensures MergeOf([month] + days) == month <==> Ids(Concat(days)) <= Ids(month)
  {
    assert ([month] + days)[1..] == days;
    FirstOfConcat({}, month, Concat(days));
    FirstOfDistinct({}, month);
    WithoutNone(month);
    assert {} + Ids(month) == Ids(month);
    var late := First(Ids(month), Concat(days));
    FirstKeeps(Ids(month), Concat(days));
    if Ids(Concat(days)) <= Ids(month) {
      FirstOfSeen(Ids(month), Concat(days));
      assert month + [] == month;
      SortOfSorted(month);
    } else {
      var x :| x in Ids(Concat(days)) && x !in Ids(month);
      assert x in Ids(late);
      SortSorted(month + late);
      assert |Sort(month + late)| > |month|;
    }
  }

  lemma {:induction false} WithoutNone(s: seq<Row>)
    ensures Without({}, s) == s
  {
    if s != [] {
      WithoutNone(s[1..]);
    }
  }

  lemma {:induction false} IdsOfConcat(files: seq<seq<Row>>)
    ensures forall i :: 0 <= i < |files| ==> Ids(files[i]) <= Ids(Concat(files))
    ensures forall x :: x in Ids(Concat(files)) ==> exists i :: 0 <= i < |files| && x in Ids(files[i])
  {
    if files != [] {
      IdsOfConcat(files[1..]);
      assert Ids(Concat(files)) == Ids(files[0]) + Ids(Concat(files[1..])) by {
        assert forall r :: r in Concat(files) <==> r in files[0] || r in Concat(files[1..]);
      }
      forall i | 0 <= i < |files|
        ensures Ids(files[i]) <= Ids(Concat(files))
      {
        if i > 0 { assert files[i] == files[1..][i - 1]; }
      }
      forall x | x in Ids(Concat(files))
        ensures exists i :: 0 <= i < |files| && x in Ids(files[i])
      {
        if x !in Ids(files[0]) {
          var i :| 0 <= i < |files[1..]| && x in Ids(files[1..][i]);
          assert x in Ids(files[i + 1]);
        }
      }
    }
  }

  /** A merge interrupted anywhere in its deletes: left is any part of the days
      the month file was made from. */
  lemma {:induction false} InterruptedMerge(days: seq<seq<Row>>, left: seq<seq<Row>>)
    requires forall d :: d in left ==> d in days
    ensures MergeOf([MergeOf(days)] + left) == MergeOf(days)
  {
    var month := MergeOf(days);
    DumpKeepsIds(Concat(days));
    IdsOfConcat(days);
    IdsOfConcat(left);
    forall x | x in Ids(Concat(left))
      ensures x in Ids(month)
    {
      var i :| 0 <= i < |left| && x in Ids(left[i]);
      assert left[i] in left;
      var j :| 0 <= j < |days| && days[j] == left[i];
      assert x in Ids(days[j]);
    }
    MergeAgain(month, left);
  }
}
