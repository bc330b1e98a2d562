/** The first row of each id: what a dump or a merge keeps. Every row without
    an id counts as one id. */
module FirstRows {
  import opened Rows
  import opened StableSort

  type Id = Option<string>

  /** An id's 128-bit hash, two words from two seeds. */
  datatype Hash = Hash(a: int, b: int)

  function Ids(s: seq<Row>): set<Id> {
    set r | r in s :: r.id
  }

  /** The rows of s that are the first of their id, given the ids seen before s. */
  function First(seen: set<Id>, s: seq<Row>): seq<Row>
    decreases s
  {
    if s == [] then []
    else if s[0].id in seen then First(seen, s[1..])
    else [s[0]] + First(seen + {s[0].id}, s[1..])
  }

  /** The rows of s whose id is not in ids. */
  function Without(ids: set<Id>, s: seq<Row>): seq<Row> {
    if s == [] then []
    else if s[0].id in ids then Without(ids, s[1..])
    else [s[0]] + Without(ids, s[1..])
  }

  ghost predicate Distinct(s: seq<Row>) {
    forall i, j :: 0 <= i < j < |s| ==> s[i].id != s[j].id
  }

  lemma {:induction false} FirstOfConcat(seen: set<Id>, a: seq<Row>, b: seq<Row>)
    ensures First(seen, a + b) == First(seen, a) + First(seen + Ids(a), b)
    decreases a
  {
    if a == [] {
      assert a + b == b;
      assert Ids(a) == {};
      assert seen + Ids(a) == seen;
    } else {
      assert (a + b)[1..] == a[1..] + b;
      assert a == [a[0]] + a[1..];
      assert Ids(a) == {a[0].id} + Ids(a[1..]);
      if a[0].id in seen {
        FirstOfConcat(seen, a[1..], b);
        assert seen + Ids(a[1..]) == seen + Ids(a);
      } else {
        FirstOfConcat(seen + {a[0].id}, a[1..], b);
        assert seen + {a[0].id} + Ids(a[1..]) == seen + Ids(a);
      }
    }
  }

  /** What is kept: rows of s of distinct unseen ids, one for each such id of s. */
  lemma {:induction false} FirstKeeps(seen: set<Id>, s: seq<Row>)
    ensures Distinct(First(seen, s))
    ensures Ids(First(seen, s)) == Ids(s) - seen
    ensures forall r :: r in First(seen, s) ==> r in s
    decreases s
  {
    if s != [] {
      assert s == [s[0]] + s[1..];
      assert Ids(s) == {s[0].id} + Ids(s[1..]);
      if s[0].id in seen {
        FirstKeeps(seen, s[1..]);
      } else {
        var t := First(seen + {s[0].id}, s[1..]);
        FirstKeeps(seen + {s[0].id}, s[1..]);
        assert First(seen, s) == [s[0]] + t;
        assert Ids([s[0]] + t) == {s[0].id} + Ids(t);
        forall j | 0 <= j < |t|
          ensures t[j].id != s[0].id
        {
          assert t[j] in t;
          assert t[j].id in Ids(t);
        }
      }
    }
  }

  /** Where a row that is kept stands: no row before it has its id. */
  lemma {:induction false} FirstPlace(seen: set<Id>, s: seq<Row>, r: Row) returns (p: nat)
    requires r in First(seen, s)
    ensures p < |s| && s[p] == r && forall q :: 0 <= q < p ==> s[q].id != r.id
    ensures r.id !in seen
    decreases s
  {
    if s[0].id in seen {
      var x := FirstPlace(seen, s[1..], r);
      p := x + 1;
    } else if r == s[0] {
      p := 0;
    } else {
      assert r in First(seen + {s[0].id}, s[1..]);
      var x := FirstPlace(seen + {s[0].id}, s[1..], r);
      p := x + 1;
    }
  }

  /** Dropping seen ids first or last is the same. */
  lemma {:induction false} WithoutOfFirst(ids: set<Id>, seen: set<Id>, s: seq<Row>)
    ensures Without(ids, First(seen, s)) == First(seen + ids, s)
    decreases s
  {
    if s != [] {
      if s[0].id in seen {
        WithoutOfFirst(ids, seen, s[1..]);
      } else {
        WithoutOfFirst(ids, seen + {s[0].id}, s[1..]);
        var t := First(seen + {s[0].id}, s[1..]);
        assert First(seen, s) == [s[0]] + t;
        assert ([s[0]] + t)[1..] == t;
        if s[0].id in ids {
          assert seen + {s[0].id} + ids == seen + ids;
        } else {
          assert seen + {s[0].id} + ids == seen + ids + {s[0].id};
        }
      }
    }
  }

  /** Over distinct ids, First only leaves out the ids seen before. */
  lemma {:induction false} FirstOfDistinct(seen: set<Id>, s: seq<Row>)
    requires Distinct(s)
    ensures First(seen, s) == Without(seen, s)
    decreases s
  {
    if s != [] {
      var x := s[0].id;
      assert Distinct(s[1..]) by {
        assert forall i, j :: 0 <= i < j < |s[1..]| ==> s[1..][i] == s[i + 1] && s[1..][j] == s[j + 1];
      }
      FirstOfDistinct(seen, s[1..]);
      if x !in seen {
        FirstOfDistinct(seen + {x}, s[1..]);
        assert forall r :: r in s[1..] ==> r.id != x;
        WithoutAbsent(seen, x, s[1..]);
      }
    }
  }

  lemma {:induction false} WithoutAbsent(ids: set<Id>, x: Id, s: seq<Row>)
    requires forall r :: r in s ==> r.id != x
    ensures Without(ids + {x}, s) == Without(ids, s)
  {
    if s != [] {
      assert s[0] in s;
      assert forall r :: r in s[1..] ==> r in s;
      WithoutAbsent(ids, x, s[1..]);
    }
  }

  lemma {:induction false} WithoutConcat(ids: set<Id>, a: seq<Row>, b: seq<Row>)
    ensures Without(ids, a + b) == Without(ids, a) + Without(ids, b)
  {
    if a == [] {
      assert a + b == b;
    } else {
      WithoutConcat(ids, a[1..], b);
      assert (a + b)[1..] == a[1..] + b;
      assert (a + b)[0] == a[0];
    }
  }

  lemma {:induction false} OfKeyWithout(ids: set<Id>, s: seq<Row>, k: Key)
    ensures OfKey(Without(ids, s), k) == Without(ids, OfKey(s, k))
  {
    if s != [] {
      OfKeyWithout(ids, s[1..], k);
      var head := if s[0].id in ids then [] else [s[0]];
      OfKeyConcat(head, Without(ids, s[1..]), k);
      var of := if KeyOf(s[0]) == k then [s[0]] else [];
      WithoutConcat(ids, of, OfKey(s[1..], k));
    }
  }

  lemma {:induction false} WithoutSorted(ids: set<Id>, s: seq<Row>)
    requires Sorted(s)
    ensures Sorted(Without(ids, s))
    ensures forall r :: r in Without(ids, s) ==> r in s
  {
    if s != [] {
      WithoutSorted(ids, s[1..]);
      assert s == [s[0]] + s[1..];
      forall r | r in s[1..]
        ensures Le(KeyOf(s[0]), KeyOf(r))
      {
        var i :| 0 <= i < |s[1..]| && s[1..][i] == r;
        assert s[i + 1] == r;
      }
    }
  }

  /** Leaving ids out of a file and sorting it commute. */
  lemma {:induction false} WithoutOfSort(ids: set<Id>, s: seq<Row>)
    ensures Without(ids, Sort(s)) == Sort(Without(ids, s))
  {
    SortSorted(s);
    WithoutSorted(ids, Sort(s));
    forall k
      ensures OfKey(Without(ids, Sort(s)), k) == OfKey(Without(ids, s), k)
    {
      OfKeyWithout(ids, Sort(s), k);
      SortKeepsOfKey(s, k);
      OfKeyWithout(ids, s, k);
    }
    StableSortUnique(Without(ids, s), Without(ids, Sort(s)));
  }

  lemma {:induction false} InsertDistinct(x: Row, s: seq<Row>)
    requires Distinct(s) && x.id !in Ids(s)
    ensures Distinct(Insert(x, s)) && Ids(Insert(x, s)) == {x.id} + Ids(s)
  {
    if s == [] || Le(KeyOf(x), KeyOf(s[0])) {
      assert forall j :: 0 <= j < |s| ==> s[j] in s && s[j].id in Ids(s);
    } else {
      assert s == [s[0]] + s[1..];
      assert Ids(s) == {s[0].id} + Ids(s[1..]);
      assert Distinct(s[1..]) by {
        assert forall i :: 0 <= i < |s[1..]| ==> s[1..][i] == s[i + 1];
      }
      InsertDistinct(x, s[1..]);
      var t := Insert(x, s[1..]);
      assert forall r :: r in s[1..] ==> r.id != s[0].id;
      assert s[0].id in Ids(s);
      assert Ids([s[0]] + t) == {s[0].id} + Ids(t);
      forall j | 0 <= j < |t|
        ensures t[j].id != s[0].id
      {
        assert t[j] in t && t[j].id in Ids(t);
      }
    }
  }

  lemma {:induction false} SortDistinct(s: seq<Row>)
    requires Distinct(s)
    ensures Distinct(Sort(s)) && Ids(Sort(s)) == Ids(s)
  {
    if s != [] {
      assert s == [s[0]] + s[1..];
      assert Distinct(s[1..]) by {
        assert forall i :: 0 <= i < |s[1..]| ==> s[1..][i] == s[i + 1];
      }
      SortDistinct(s[1..]);
      assert forall r :: r in s[1..] ==> r.id != s[0].id;
      InsertDistinct(s[0], Sort(s[1..]));
      assert Ids(s) == {s[0].id} + Ids(s[1..]);
    }
  }

  /** The rows of s whose flag is not set. */
  function Unmarked(s: seq<Row>, mark: seq<bool>): seq<Row>
    requires |s| == |mark|
  {
    if s == [] then []
    else (if mark[0] then [] else [s[0]]) + Unmarked(s[1..], mark[1..])
  }

  lemma {:induction false} UnmarkedConcat(a: seq<Row>, m: seq<bool>, b: seq<Row>, n: seq<bool>)
    requires |a| == |m| && |b| == |n|
    ensures Unmarked(a + b, m + n) == Unmarked(a, m) + Unmarked(b, n)
  {
    if a == [] {
      assert a + b == b && m + n == n;
    } else {
      UnmarkedConcat(a[1..], m[1..], b, n);
      var head := if m[0] then [] else [a[0]];
      var rest := Unmarked(a[1..], m[1..]);
      assert (a + b)[1..] == a[1..] + b && (m + n)[1..] == m[1..] + n;
      assert Unmarked(a + b, m + n) == head + (rest + Unmarked(b, n));
      assert Unmarked(a, m) == head + rest;
    }
  }

  /** Whether row i of s comes after another of its id. */
  ghost predicate Repeats(s: seq<Row>, i: nat)
    requires i < |s|
  {
    exists j :: 0 <= j < i && s[j].id == s[i].id
  }

  /** Marking exactly the rows that repeat an id (seen before s, or earlier in
      s) leaves the first rows. */
  lemma {:induction false} UnmarkedIsFirst(seen: set<Id>, s: seq<Row>, mark: seq<bool>)
    requires |s| == |mark|
    requires forall i :: 0 <= i < |s| ==> (mark[i] <==> s[i].id in seen || Repeats(s, i))
    ensures Unmarked(s, mark) == First(seen, s)
    decreases s
  {
    if s != [] {
      var seen' := seen + {s[0].id};
      var s', mark' := s[1..], mark[1..];
      assert !Repeats(s, 0);
      forall i | 0 <= i < |s'|
        ensures mark'[i] <==> s'[i].id in seen' || Repeats(s', i)
      {
        assert mark'[i] == mark[i + 1] && s'[i] == s[i + 1];
        assert Repeats(s', i) ==> Repeats(s, i + 1) by {
          if Repeats(s', i) {
            var j :| 0 <= j < i && s'[j].id == s'[i].id;
            assert s[j + 1] == s'[j];
          }
        }
        if s[i + 1].id == s[0].id {
          assert Repeats(s, i + 1);
        } else if Repeats(s, i + 1) {
          var j :| 0 <= j < i + 1 && s[j].id == s[i + 1].id;
          assert s'[j - 1] == s[j];
        }
      }
      UnmarkedIsFirst(seen', s', mark');
      if mark[0] {
        assert seen' == seen;
      }
    }
  }

  /** Which ids lines read so far had, to tell a first line from a repeat. */
  class FirstLines {
    var seen: set<string>
    var nullSeen: bool

    constructor ()
      ensures Seen() == {}
    {
      seen, nullSeen := {}, false;
    }

    function Seen(): set<Id>
      reads this
    {
      (set id | id in seen :: Some(id)) + (if nullSeen then {None} else {})
    }

    /** Takes in a line's id: true when no line before had it. */
    method Keep(id: Id) returns (first: bool)
      modifies this
      ensures first <==> id !in old(Seen())
      ensures Seen() == old(Seen()) + {id}
      ensures forall r: Row, rest: seq<Row> :: r.id == id ==>
        First(old(Seen()), [r] + rest) == (if first then [r] else []) + First(Seen(), rest)
    {
      if id == None {
        first := !nullSeen;
        nullSeen := true;
      } else {
        first := id.value !in seen;
        seen := seen + {id.value};
      }
      assert Seen() == old(Seen()) + {id};
      forall r: Row, rest: seq<Row> | r.id == id
        ensures First(old(Seen()), [r] + rest) == (if first then [r] else []) + First(Seen(), rest)
      {
        assert ([r] + rest)[1..] == rest;
        if !first { assert Seen() == old(Seen()); }
      }
    }
  }
}
