/** The rows an events file holds and the order it holds them in. */
module Rows {

  datatype Option<+T> = None | Some(value: T)

  /** A non-NULL value of a key: its text, or one the key's column cannot hold. */
  datatype Cell = Text(text: string) | Misfit

  /** One event: its id, the two columns a file is ordered by, and every other
      cell by key, a NULL one left out. */
  datatype Row = Row(id: Option<string>, family: Option<string>, ts: Option<int>, cells: map<string, Cell>)

  datatype Key = Key(family: Option<string>, ts: Option<int>)

  function KeyOf(r: Row): Key {
    Key(r.family, r.ts)
  }

  /** strings.Compare, over the text's bytes. */
  function CompareText(a: string, b: string): int {
    if a == [] || b == [] then
      if a == b then 0 else if a == [] then -1 else 1
    else if a[0] != b[0] then
      if a[0] < b[0] then -1 else 1
    else
      CompareText(a[1..], b[1..])
  }

  lemma {:induction false} CompareTextAntisymmetric(a: string, b: string)
    ensures CompareText(b, a) == -CompareText(a, b)
    ensures CompareText(a, b) == 0 <==> a == b
  {
    if a != [] && b != [] && a[0] == b[0] {
      CompareTextAntisymmetric(a[1..], b[1..]);
      assert a == [a[0]] + a[1..] && b == [b[0]] + b[1..];
    }
  }

  lemma {:induction false} CompareTextTransitive(a: string, b: string, c: string)
    requires CompareText(a, b) <= 0 && CompareText(b, c) <= 0
    ensures CompareText(a, c) <= 0
    ensures CompareText(a, b) < 0 || CompareText(b, c) < 0 ==> CompareText(a, c) < 0
  {
    if a != [] && b != [] && c != [] && a[0] == b[0] && b[0] == c[0] {
      CompareTextTransitive(a[1..], b[1..], c[1..]);
    }
  }

  /** Two values of a VARCHAR column, NULL after every value. */
  function CompareTextNullsLast(a: Option<string>, b: Option<string>): int {
    match (a, b)
    case (None, None) => 0
    case (None, Some(_)) => 1
    case (Some(_), None) => -1
    case (Some(x), Some(y)) => CompareText(x, y)
  }

  /** Two values of a TIMESTAMP column, NULL after every value. */
  function CompareTimeNullsLast(a: Option<int>, b: Option<int>): int {
    match (a, b)
    case (None, None) => 0
    case (None, Some(_)) => 1
    case (Some(_), None) => -1
    case (Some(x), Some(y)) => if x < y then -1 else if x == y then 0 else 1
  }

  /** Orders (family, ts) pairs, NULLs last in each. */
  function CompareKeys(a: Key, b: Key): int {
    var c := CompareTextNullsLast(a.family, b.family);
    if c != 0 then c else CompareTimeNullsLast(a.ts, b.ts)
  }

  predicate Le(a: Key, b: Key) {
    CompareKeys(a, b) <= 0
  }

  /** Reversing the two keys reverses the verdict, and only equal keys tie. */
  lemma {:induction false} CompareKeysAntisymmetric(a: Key, b: Key)
    ensures CompareKeys(b, a) == -CompareKeys(a, b)
    ensures CompareKeys(a, b) == 0 <==> a == b
  {
    if a.family.Some? && b.family.Some? {
      CompareTextAntisymmetric(a.family.value, b.family.value);
    }
  }

  lemma {:induction false} LeTransitive(a: Key, b: Key, c: Key)
    requires Le(a, b) && Le(b, c)
    ensures Le(a, c)
  {
    if a.family.Some? && b.family.Some? && c.family.Some? {
      CompareTextTransitive(a.family.value, b.family.value, c.family.value);
      CompareTextAntisymmetric(a.family.value, b.family.value);
      CompareTextAntisymmetric(b.family.value, c.family.value);
    }
  }

  /** Le is a total order on keys. */
  lemma {:induction false} LeTotal(a: Key, b: Key)
    ensures Le(a, b) || Le(b, a)
    ensures Le(a, b) && Le(b, a) ==> a == b
    ensures Le(a, a)
  {
    CompareKeysAntisymmetric(a, b);
    CompareKeysAntisymmetric(a, a);
  }
}
