/** In what order a directory is listed: by file name, so that of two closed logs
    of a day the text of their numbers decides, not the numbers. */
module Listing {
  import opened Rows
  import opened Ints
  import opened Ordered
  import opened Directory

  /** What follows <day>. in the name of a closed log. */
  function NumberText(n: nat): string {
    Itoa(n) + ".closed"
  }

  function Rank(n: Name): nat {
    match n
    case LogName(_) => 0
    case Closed(_, _) => 1
    case Dumping(_, _) => 2
    case DayFile(_, _) => 3
    case MonthFile(_) => 4
  }

  function DayOf(n: Name): int {
    if n.MonthFile? then n.month else n.day
  }

  /** The closed logs of a day as their names are listed; names of two days or two
      kinds in any fixed order, which nothing turns on. */
  predicate ListedBefore(a: Name, b: Name) {
    if Rank(a) != Rank(b) then Rank(a) < Rank(b)
    else if DayOf(a) != DayOf(b) then DayOf(a) < DayOf(b)
    else
      match a
      case LogName(_) => false
      case MonthFile(_) => false
      case Closed(_, n) => CompareText(NumberText(n), NumberText(b.n)) < 0
      case Dumping(_, s) => s < b.seg
      case DayFile(_, s) => s < b.seg
  }

  lemma {:induction false} NumberTextInjective(m: nat, n: nat)
    requires NumberText(m) == NumberText(n)
    ensures m == n
  {
    var s, t := NumberText(m), NumberText(n);
    assert s[..|s| - 7] == Itoa(m) && t[..|t| - 7] == Itoa(n);
    ItoaInjective(m, n);
  }

  lemma {:induction false} ListedTotal(a: Name, b: Name)
    ensures ListedBefore(a, b) || a == b || ListedBefore(b, a)
    ensures ListedBefore(a, b) ==> a != b
  {
    if a.Closed? && b.Closed? {
      CompareTextAntisymmetric(NumberText(a.n), NumberText(b.n));
      if NumberText(a.n) == NumberText(b.n) { NumberTextInjective(a.n, b.n); }
    }
  }

  lemma {:induction false} ListedTransitive()
    ensures IsTransitive(ListedBefore)
  {
    forall a, b, c | ListedBefore(a, b) && ListedBefore(b, c)
      ensures ListedBefore(a, c)
    {
      if a.Closed? && b.Closed? && c.Closed? && a.day == b.day == c.day {
        CompareTextTransitive(NumberText(a.n), NumberText(b.n), NumberText(c.n));
      }
    }
  }

  /** Up to nine the numbers are listed in order. */
  lemma {:induction false} OneDigitListed(day: int, m: nat, n: nat)
    requires m < n < 10
    ensures ListedBefore(Closed(day, m), Closed(day, n))
  {
    var s, t := NumberText(m), NumberText(n);
    assert s[0] == '0' + m as char && t[0] == '0' + n as char;
  }

  /** The tenth is listed before the second. */
  lemma {:induction false} TenBeforeTwo(day: int)
    ensures ListedBefore(Closed(day, 10), Closed(day, 2))
  {
    assert Itoa(10) == Itoa(1) + ['0'];
    assert NumberText(10)[0] == '1' && NumberText(2)[0] == '2';
  }

  /** Every name there is, in order. */
  method Sorted(files: set<Name>) returns (names: seq<Name>)
    ensures InOrder(ListedBefore, names)
    ensures forall n :: n in names <==> n in files
  {
    names := [];
    var rest := files;
    ListedTransitive();
    while rest != {}
      invariant rest <= files
      invariant InOrder(ListedBefore, names)
      invariant forall n :: n in files <==> n in rest || n in names
      decreases rest
    {
      var n :| n in rest;
      rest := rest - {n};
      forall y
        ensures ListedBefore(n, y) || n == y || ListedBefore(y, n)
      {
        ListedTotal(n, y);
      }
      PutInOrder(ListedBefore, names, n);
      names := Put(ListedBefore, names, n);
    }
  }
}
