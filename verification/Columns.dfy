/** The columns of a log: one for each key its lines hold, no two equal but
    for case. */
module Columns {
  import opened Rows
  import opened Ordered
  import opened Ints

  datatype Field = Field(name: string, typ: string)

  datatype Column = Column(key: string, name: string, typ: string)

  // ----- names

  /** strings.ToLower, character by character. */
  function Lower(lower: char -> char, s: string): (r: string)
    ensures |r| == |s|
  {
    seq(|s|, i requires 0 <= i < |s| => lower(s[i]))
  }

  ghost predicate KeepsDigits(lower: char -> char) {
    forall c :: '0' <= c <= '9' ==> lower(c) == c
  }

  /** A key as a column name: NUL becomes the text \u0000. */
  function Visible(key: string): string {
    if key == "" then ""
    else if key[0] == 0 as char then "\\u0000" + Visible(key[1..])
    else [key[0]] + Visible(key[1..])
  }

  function Suffixed(key: string, n: nat): string {
    if n == 0 then Visible(key) else Visible(key) + "_" + Itoa(n)
  }

  lemma {:induction false} LowerConcat(lower: char -> char, a: string, b: string)
    ensures Lower(lower, a + b) == Lower(lower, a) + Lower(lower, b)
  {
  }

  /** No two suffixes of a key give names equal but for case. */
  lemma {:induction false} SuffixesDiffer(lower: char -> char, key: string, m: nat, n: nat)
    requires KeepsDigits(lower) && m != n
    ensures Lower(lower, Suffixed(key, m)) != Lower(lower, Suffixed(key, n))
  {
    if m > 0 && n > 0 {
      var base := Visible(key) + "_";
      LowerConcat(lower, base, Itoa(m));
      LowerConcat(lower, base, Itoa(n));
      assert Lower(lower, Itoa(m)) == Itoa(m) && Lower(lower, Itoa(n)) == Itoa(n);
      if Lower(lower, Suffixed(key, m)) == Lower(lower, Suffixed(key, n)) {
        assert Itoa(m) == (Lower(lower, base) + Itoa(m))[|base|..] == Itoa(n);
        ItoaInjective(m, n);
      }
    }
  }

  // ----- what the columns are

  predicate IsField(fields: seq<Field>, key: string) {
    exists i :: 0 <= i < |fields| && fields[i].name == key
  }

  ghost predicate FieldsOk(lower: char -> char, fields: seq<Field>) {
    forall i, j :: 0 <= i < j < |fields| ==> Lower(lower, fields[i].name) != Lower(lower, fields[j].name)
  }

  predicate TextBefore(a: string, b: string) {
    CompareText(a, b) < 0
  }

  /** The keys that are no field, in order. */
  ghost predicate IsRest(fields: seq<Field>, keys: set<string>, rest: seq<string>) {
    InOrder(TextBefore, rest) && forall k :: k in rest <==> k in keys && !IsField(fields, k)
  }

  /** Nothing before rest[i] has its visible text but for case: no field, no key. */
  ghost predicate IsPlain(lower: char -> char, fields: seq<Field>, rest: seq<string>, i: nat)
    requires i < |rest|
  {
    && (forall f :: 0 <= f < |fields| ==> Lower(lower, fields[f].name) != Lower(lower, Visible(rest[i])))
    && (forall j :: 0 <= j < i ==> Lower(lower, Visible(rest[j])) != Lower(lower, Visible(rest[i])))
  }

  /** Of the first n keys of rest, the plain ones or the others. */
  ghost function Keys(lower: char -> char, fields: seq<Field>, rest: seq<string>, plain: bool, n: nat): seq<string>
    requires n <= |rest|
  {
    if n == 0 then []
    else Keys(lower, fields, rest, plain, n - 1) + if IsPlain(lower, fields, rest, n - 1) == plain then [rest[n - 1]] else []
  }

  ghost predicate HasName(lower: char -> char, cols: seq<Column>, name: string) {
    exists j :: 0 <= j < |cols| && Lower(lower, cols[j].name) == Lower(lower, name)
  }

  /** The name is the key's text, or that with the first suffix free when it was added. */
  ghost predicate NameOk(lower: char -> char, before: seq<Column>, c: Column) {
    c.typ == "VARCHAR" && exists n :: IsFirstFree(lower, before, c, n)
  }

  ghost predicate IsFirstFree(lower: char -> char, before: seq<Column>, c: Column, n: nat) {
    c.name == Suffixed(c.key, n) && AllTaken(lower, before, c.key, n)
  }

  ghost predicate AllTaken(lower: char -> char, before: seq<Column>, key: string, n: nat) {
    forall m: nat {:trigger HasName(lower, before, Suffixed(key, m))} :: m < n ==> HasName(lower, before, Suffixed(key, m))
  }

  ghost predicate DistinctNames(lower: char -> char, cols: seq<Column>) {
    forall i, j :: 0 <= i < j < |cols| ==> Lower(lower, cols[i].name) != Lower(lower, cols[j].name)
  }

  ghost predicate StartsWithFields(fields: seq<Field>, cols: seq<Column>) {
    |fields| <= |cols| && forall i :: 0 <= i < |fields| ==> cols[i] == Column(fields[i].name, fields[i].name, fields[i].typ)
  }

  /** cols are the fields, then a column for each of ks. */
  ghost predicate AreColumnsOf(lower: char -> char, fields: seq<Field>, ks: seq<string>, cols: seq<Column>) {
    && StartsWithFields(fields, cols)
    && |cols| == |fields| + |ks|
    && (forall i {:trigger cols[i]} :: |fields| <= i < |cols| ==> cols[i].key == ks[i - |fields|])
    && (forall i {:trigger NameOk(lower, cols[..i], cols[i])} :: |fields| <= i < |cols| ==> NameOk(lower, cols[..i], cols[i]))
    && DistinctNames(lower, cols)
  }

  ghost predicate AreColumns(lower: char -> char, fields: seq<Field>, rest: seq<string>, cols: seq<Column>) {
    AreColumnsOf(lower, fields,
      Keys(lower, fields, rest, true, |rest|) + Keys(lower, fields, rest, false, |rest|), cols)
  }

  /** The columns of a log whose lines hold keys. */
  ghost predicate AreKeyColumns(lower: char -> char, fields: seq<Field>, keys: set<string>, cols: seq<Column>) {
    exists rest {:trigger IsRest(fields, keys, rest)} :: IsRest(fields, keys, rest) && AreColumns(lower, fields, rest, cols)
  }

  lemma {:induction false} RestUnique(fields: seq<Field>, keys: set<string>, a: seq<string>, b: seq<string>)
    requires IsRest(fields, keys, a) && IsRest(fields, keys, b)
    ensures a == b
  {
    forall x: string, y: string | TextBefore(x, y)
      ensures !TextBefore(y, x)
    {
      CompareTextAntisymmetric(x, y);
    }
    OrderedUnique(TextBefore, a, b);
  }

  lemma {:induction false} NameUnique(lower: char -> char, before: seq<Column>, c: Column, d: Column)
    requires c.key == d.key && NameOk(lower, before, c) && NameOk(lower, before, d)
    requires !HasName(lower, before, c.name) && !HasName(lower, before, d.name)
    ensures c == d
  {
    var m: nat :| IsFirstFree(lower, before, c, m);
    var n: nat :| IsFirstFree(lower, before, d, n);
    assert m == n;
  }

  lemma {:induction false} ColumnUnique(lower: char -> char, fields: seq<Field>, ks: seq<string>, a: seq<Column>, b: seq<Column>, i: nat)
    requires AreColumnsOf(lower, fields, ks, a) && AreColumnsOf(lower, fields, ks, b)
    requires i < |a| && a[..i] == b[..i]
    ensures a[i] == b[i]
  {
    if i >= |fields| {
      assert NameOk(lower, a[..i], a[i]) && NameOk(lower, b[..i], b[i]);
      NotBefore(lower, a, i);
      NotBefore(lower, b, i);
      NameUnique(lower, a[..i], a[i], b[i]);
    }
  }

  lemma {:induction false} NotBefore(lower: char -> char, cols: seq<Column>, i: nat)
    requires DistinctNames(lower, cols) && i < |cols|
    ensures !HasName(lower, cols[..i], cols[i].name)
  {
  }

  lemma {:induction false} ListColumnsUnique(lower: char -> char, fields: seq<Field>, ks: seq<string>, a: seq<Column>, b: seq<Column>)
    requires AreColumnsOf(lower, fields, ks, a) && AreColumnsOf(lower, fields, ks, b)
    ensures a == b
  {
    for i := 0 to |a|
      invariant a[..i] == b[..i]
    {
      ColumnUnique(lower, fields, ks, a, b, i);
      assert a[..i + 1] == a[..i] + [a[i]] && b[..i + 1] == b[..i] + [b[i]];
    }
    assert a[..|a|] == a && b[..|b|] == b;
  }

  /** The columns depend on the set of keys and nothing else. */
  lemma {:induction false} ColumnsUnique(lower: char -> char, fields: seq<Field>, keys: set<string>, a: seq<Column>, b: seq<Column>)
    requires AreKeyColumns(lower, fields, keys, a) && AreKeyColumns(lower, fields, keys, b)
    ensures a == b
  {
    var r :| IsRest(fields, keys, r) && AreColumns(lower, fields, r, a);
    var s :| IsRest(fields, keys, s) && AreColumns(lower, fields, s, b);
    RestUnique(fields, keys, r, s);
    ListColumnsUnique(lower, fields, Keys(lower, fields, r, true, |r|) + Keys(lower, fields, r, false, |r|), a, b);
  }

  // ----- columnsOf

  /** The names of cols, but for case. */
  ghost predicate IsTaken(lower: char -> char, cols: seq<Column>, taken: set<string>) {
    forall s :: s in taken <==> exists j :: 0 <= j < |cols| && Lower(lower, cols[j].name) == s
  }

  lemma {:induction false} TakenMore(lower: char -> char, cols: seq<Column>, taken: set<string>, c: Column)
    requires IsTaken(lower, cols, taken)
    ensures IsTaken(lower, cols + [c], taken + {Lower(lower, c.name)})
  {
    var more := cols + [c];
    assert more[|cols|] == c;
    assert forall j :: 0 <= j < |cols| ==> more[j] == cols[j];
  }

  /** A column more, its name free. */
  lemma {:induction false} ColumnMore(lower: char -> char, fields: seq<Field>, ks: seq<string>, cols: seq<Column>, taken: set<string>, c: Column)
    requires AreColumnsOf(lower, fields, ks, cols) && IsTaken(lower, cols, taken)
    requires NameOk(lower, cols, c) && Lower(lower, c.name) !in taken
    ensures AreColumnsOf(lower, fields, ks + [c.key], cols + [c])
    ensures IsTaken(lower, cols + [c], taken + {Lower(lower, c.name)})
  {
    TakenMore(lower, cols, taken, c);
    var more := cols + [c];
    assert forall i :: 0 <= i < |cols| ==> more[i] == cols[i] && more[..i] == cols[..i];
    assert more[..|cols|] == cols;
  }

  /** The fields' columns. */
  method FieldColumns(lower: char -> char, fields: seq<Field>) returns (cols: seq<Column>, taken: set<string>)
    requires FieldsOk(lower, fields)
    ensures AreColumnsOf(lower, fields, [], cols) && IsTaken(lower, cols, taken)
  {
    cols, taken := [], {};
    for i := 0 to |fields|
      invariant |cols| == i && forall j :: 0 <= j < i ==> cols[j] == Column(fields[j].name, fields[j].name, fields[j].typ)
      invariant IsTaken(lower, cols, taken)
    {
      var c := Column(fields[i].name, fields[i].name, fields[i].typ);
      TakenMore(lower, cols, taken, c);
      taken := taken + {Lower(lower, c.name)};
      cols := cols + [c];
    }
  }

  /** The keys that are no field, sorted. */
  method Rest(fields: seq<Field>, keys: set<string>) returns (rest: seq<string>)
    ensures IsRest(fields, keys, rest)
  {
    rest := [];
    var left := keys;
    forall x: string, y: string, z: string | TextBefore(x, y) && TextBefore(y, z)
      ensures TextBefore(x, z)
    {
      CompareTextTransitive(x, y, z);
    }
    while left != {}
      invariant left <= keys && InOrder(TextBefore, rest)
      invariant forall k :: k in rest <==> k in keys && k !in left && !IsField(fields, k)
      decreases left
    {
      var k :| k in left;
      left := left - {k};
      if !IsField(fields, k) {
        forall y
          ensures TextBefore(k, y) || k == y || TextBefore(y, k)
        {
          CompareTextAntisymmetric(k, y);
        }
        PutInOrder(TextBefore, rest, k);
        rest := Put(TextBefore, rest, k);
      }
    }
  }

  /** taken is the fields' and the first n keys' texts, but for case. */
  ghost predicate IsTakenTo(lower: char -> char, fields: seq<Field>, rest: seq<string>, n: nat, taken: set<string>)
    requires n <= |rest|
  {
    forall s :: s in taken <==>
      (exists f :: 0 <= f < |fields| && Lower(lower, fields[f].name) == s) ||
      (exists j :: 0 <= j < n && Lower(lower, Visible(rest[j])) == s)
  }

  lemma {:induction false} TakenToMore(lower: char -> char, fields: seq<Field>, rest: seq<string>, n: nat, taken: set<string>)
    requires n < |rest| && IsTakenTo(lower, fields, rest, n, taken)
    ensures IsPlain(lower, fields, rest, n) <==> Lower(lower, Visible(rest[n])) !in taken
    ensures IsTakenTo(lower, fields, rest, n + 1, taken + {Lower(lower, Visible(rest[n]))})
  {
    var t := Lower(lower, Visible(rest[n]));
    assert t in taken <==>
      (exists f :: 0 <= f < |fields| && Lower(lower, fields[f].name) == t) ||
      (exists j :: 0 <= j < n && Lower(lower, Visible(rest[j])) == t);
  }

  lemma {:induction false} TakenToNone(lower: char -> char, fields: seq<Field>, rest: seq<string>, cols: seq<Column>, taken: set<string>)
    requires AreColumnsOf(lower, fields, [], cols) && IsTaken(lower, cols, taken)
    ensures IsTakenTo(lower, fields, rest, 0, taken)
  {
    assert forall i :: 0 <= i < |fields| ==> cols[i].name == fields[i].name;
  }

  /** How far PlainColumns has come: the first n keys. */
  ghost predicate PlainTo(lower: char -> char, fields: seq<Field>, rest: seq<string>, n: nat,
                          cols: seq<Column>, taken: set<string>, later: seq<string>)
    requires n <= |rest|
  {
    && AreColumnsOf(lower, fields, Keys(lower, fields, rest, true, n), cols) && IsTaken(lower, cols, taken)
    && later == Keys(lower, fields, rest, false, n)
    && IsTakenTo(lower, fields, rest, n, taken)
  }

  lemma {:induction false} PlainNext(lower: char -> char, fields: seq<Field>, rest: seq<string>, n: nat,
                                     cols: seq<Column>, taken: set<string>, later: seq<string>)
    requires n < |rest| && PlainTo(lower, fields, rest, n, cols, taken, later)
    ensures var t := Lower(lower, Visible(rest[n]));
            if t in taken then PlainTo(lower, fields, rest, n + 1, cols, taken, later + [rest[n]])
            else PlainTo(lower, fields, rest, n + 1, cols + [Column(rest[n], Visible(rest[n]), "VARCHAR")], taken + {t}, later)
  {
    var k, t := rest[n], Lower(lower, Visible(rest[n]));
    TakenToMore(lower, fields, rest, n, taken);
    if t in taken {
      assert taken + {t} == taken;
      assert Keys(lower, fields, rest, true, n + 1) == Keys(lower, fields, rest, true, n);
    } else {
      var c := Column(k, Visible(k), "VARCHAR");
      assert IsFirstFree(lower, cols, c, 0);
      ColumnMore(lower, fields, Keys(lower, fields, rest, true, n), cols, taken, c);
      assert Keys(lower, fields, rest, false, n + 1) == Keys(lower, fields, rest, false, n);
    }
  }

  /** The keys whose text is free named by it; the others put off. */
  method PlainColumns(lower: char -> char, fields: seq<Field>, rest: seq<string>, cols0: seq<Column>, taken0: set<string>)
    returns (cols: seq<Column>, taken: set<string>, later: seq<string>)
    requires AreColumnsOf(lower, fields, [], cols0) && IsTaken(lower, cols0, taken0)
    ensures AreColumnsOf(lower, fields, Keys(lower, fields, rest, true, |rest|), cols) && IsTaken(lower, cols, taken)
    ensures later == Keys(lower, fields, rest, false, |rest|)
  {
    cols, taken, later := cols0, taken0, [];
    TakenToNone(lower, fields, rest, cols, taken);
    for n := 0 to |rest|
      invariant PlainTo(lower, fields, rest, n, cols, taken, later)
    {
      var k := rest[n];
      PlainNext(lower, fields, rest, n, cols, taken, later);
      if Lower(lower, Visible(k)) in taken {
        later := later + [k];
        continue;
      }
      taken := taken + {Lower(lower, Visible(k))};
      cols := cols + [Column(k, Visible(k), "VARCHAR")];
    }
  }

  /** A suffix whose name is taken is still to be tried. */
  ghost predicate IsLeft(lower: char -> char, key: string, m: nat, taken: set<string>, left: set<string>) {
    Lower(lower, Suffixed(key, m)) in taken ==> Lower(lower, Suffixed(key, m)) in left
  }

  ghost predicate AreLeft(lower: char -> char, key: string, n: nat, taken: set<string>, left: set<string>) {
    forall m: nat {:trigger IsLeft(lower, key, m, taken, left)} :: n <= m ==> IsLeft(lower, key, m, taken, left)
  }

  lemma {:induction false} OneTried(lower: char -> char, key: string, n: nat, taken: set<string>, left: set<string>)
    requires KeepsDigits(lower) && AreLeft(lower, key, n, taken, left)
    ensures AreLeft(lower, key, n + 1, taken, left - {Lower(lower, Suffixed(key, n))})
    ensures Lower(lower, Suffixed(key, n)) in taken ==> Lower(lower, Suffixed(key, n)) in left
  {
    assert IsLeft(lower, key, n, taken, left);
    forall m: nat | n + 1 <= m
      ensures IsLeft(lower, key, m, taken, left - {Lower(lower, Suffixed(key, n))})
    {
      assert IsLeft(lower, key, m, taken, left);
      SuffixesDiffer(lower, key, m, n);
    }
  }

  lemma {:induction false} TakenIsName(lower: char -> char, cols: seq<Column>, taken: set<string>, name: string)
    requires IsTaken(lower, cols, taken) && Lower(lower, name) in taken
    ensures HasName(lower, cols, name)
  {
  }

  /** The first name free of a key's text and its suffixes: some suffix is free,
      as no more names are taken than there are. */
  method FreeName(lower: char -> char, cols: seq<Column>, taken: set<string>, key: string) returns (name: string)
    requires KeepsDigits(lower) && IsTaken(lower, cols, taken)
    ensures Lower(lower, name) !in taken && NameOk(lower, cols, Column(key, name, "VARCHAR"))
  {
    name := Visible(key);
    var n := 0;
    ghost var left := taken;
    while Lower(lower, name) in taken
      invariant name == Suffixed(key, n)
      invariant AllTaken(lower, cols, key, n)
      invariant AreLeft(lower, key, n, taken, left)
      decreases left
    {
      TakenIsName(lower, cols, taken, name);
      OneTried(lower, key, n, taken, left);
      left := left - {Lower(lower, name)};
      n := n + 1;
      name := Visible(key) + "_" + Itoa(n);
    }
    assert IsFirstFree(lower, cols, Column(key, name, "VARCHAR"), n);
  }

  /** columnsOf: fields, then every other key by its text, then, suffixed, the
      keys whose text is another column's but for case. */
  method ColumnsOf(lower: char -> char, fields: seq<Field>, keys: set<string>) returns (cols: seq<Column>)
    requires KeepsDigits(lower) && FieldsOk(lower, fields)
    ensures AreKeyColumns(lower, fields, keys, cols)
  {
    var taken, later;
    cols, taken := FieldColumns(lower, fields);
    var rest := Rest(fields, keys);
    cols, taken, later := PlainColumns(lower, fields, rest, cols, taken);
    ghost var ks := Keys(lower, fields, rest, true, |rest|);
    assert later[..0] == [] && ks + [] == ks;
    for i := 0 to |later|
      invariant AreColumnsOf(lower, fields, ks + later[..i], cols) && IsTaken(lower, cols, taken)
    {
      var name := FreeName(lower, cols, taken, later[i]);
      var c := Column(later[i], name, "VARCHAR");
      ColumnMore(lower, fields, ks + later[..i], cols, taken, c);
      assert later[..i + 1] == later[..i] + [later[i]];
      assert ks + later[..i + 1] == ks + later[..i] + [later[i]];
      taken := taken + {Lower(lower, name)};
      cols := cols + [c];
    }
    assert later[..|later|] == later;
  }

  // ----- what a reader can rely on

  lemma {:induction false} KeysFrom(lower: char -> char, fields: seq<Field>, rest: seq<string>, plain: bool, n: nat, x: nat) returns (i: nat)
    requires n <= |rest| && x < |Keys(lower, fields, rest, plain, n)|
    ensures i < n && rest[i] == Keys(lower, fields, rest, plain, n)[x] && IsPlain(lower, fields, rest, i) == plain
  {
    if x < |Keys(lower, fields, rest, plain, n - 1)| {
      i := KeysFrom(lower, fields, rest, plain, n - 1, x);
    } else {
      i := n - 1;
    }
  }

  lemma {:induction false} KeysHave(lower: char -> char, fields: seq<Field>, rest: seq<string>, plain: bool, n: nat, i: nat) returns (x: nat)
    requires i < n <= |rest| && IsPlain(lower, fields, rest, i) == plain
    ensures x < |Keys(lower, fields, rest, plain, n)| && Keys(lower, fields, rest, plain, n)[x] == rest[i]
  {
    if i < n - 1 {
      x := KeysHave(lower, fields, rest, plain, n - 1, i);
    } else {
      x := |Keys(lower, fields, rest, plain, n - 1)|;
    }
  }

  /** Where the keys of a part come from in rest: further on, from further on. */
  lemma {:induction false} KeysFromInOrder(lower: char -> char, fields: seq<Field>, rest: seq<string>, plain: bool, n: nat, x: nat, y: nat)
    returns (i: nat, j: nat)
    requires n <= |rest| && x < y < |Keys(lower, fields, rest, plain, n)|
    ensures i < j < n && rest[i] == Keys(lower, fields, rest, plain, n)[x] && rest[j] == Keys(lower, fields, rest, plain, n)[y]
  {
    if y < |Keys(lower, fields, rest, plain, n - 1)| {
      i, j := KeysFromInOrder(lower, fields, rest, plain, n - 1, x, y);
    } else {
      i := KeysFrom(lower, fields, rest, plain, n - 1, x);
      j := n - 1;
    }
  }

  lemma {:induction false} KeysDistinct(lower: char -> char, fields: seq<Field>, rest: seq<string>, plain: bool, n: nat, x: nat, y: nat)
    requires n <= |rest| && InOrder(TextBefore, rest) && x < y < |Keys(lower, fields, rest, plain, n)|
    ensures TextBefore(Keys(lower, fields, rest, plain, n)[x], Keys(lower, fields, rest, plain, n)[y])
  {
    var i, j := KeysFromInOrder(lower, fields, rest, plain, n, x, y);
  }

  /** A key of the log that is no field has a column. */
  lemma {:induction false} KeyHasColumn(lower: char -> char, fields: seq<Field>, rest: seq<string>, cols: seq<Column>, r: nat) returns (i: nat)
    requires AreColumns(lower, fields, rest, cols) && r < |rest|
    ensures |fields| <= i < |cols| && cols[i].key == rest[r]
    ensures IsPlain(lower, fields, rest, r) <==> i < |fields| + |Keys(lower, fields, rest, true, |rest|)|
  {
    var p := Keys(lower, fields, rest, true, |rest|);
    var plain := IsPlain(lower, fields, rest, r);
    var x := KeysHave(lower, fields, rest, plain, |rest|, r);
    i := |fields| + if plain then x else |p| + x;
  }

  /** No key has two columns, and a column's key is a field or a key of the log. */
  lemma {:induction false} KeyOfColumn(lower: char -> char, fields: seq<Field>, keys: set<string>, rest: seq<string>, cols: seq<Column>, i: nat)
    requires FieldsOk(lower, fields) && IsRest(fields, keys, rest) && AreColumns(lower, fields, rest, cols) && i < |cols|
    ensures IsField(fields, cols[i].key) || cols[i].key in keys
    ensures forall j :: 0 <= j < i ==> cols[j].key != cols[i].key
  {
    if i >= |fields| {
      var r := RestOfColumn(lower, fields, rest, cols, i);
      assert rest[r] in rest;
      forall j | 0 <= j < i
        ensures cols[j].key != cols[i].key
      {
        if j >= |fields| { RestDiffers(lower, fields, rest, cols, j, i); }
      }
    }
  }

  lemma {:induction false} RestOfColumn(lower: char -> char, fields: seq<Field>, rest: seq<string>, cols: seq<Column>, i: nat) returns (r: nat)
    requires AreColumns(lower, fields, rest, cols) && |fields| <= i < |cols|
    ensures r < |rest| && cols[i].key == rest[r]
    ensures IsPlain(lower, fields, rest, r) <==> i < |fields| + |Keys(lower, fields, rest, true, |rest|)|
  {
    var p := Keys(lower, fields, rest, true, |rest|);
    if i < |fields| + |p| {
      r := KeysFrom(lower, fields, rest, true, |rest|, i - |fields|);
    } else {
      r := KeysFrom(lower, fields, rest, false, |rest|, i - |fields| - |p|);
    }
  }

  lemma {:induction false} BeforeDiffers(a: string, b: string)
    requires TextBefore(a, b)
    ensures a != b
  {
    CompareTextAntisymmetric(a, b);
  }

  lemma {:induction false} RestDiffers(lower: char -> char, fields: seq<Field>, rest: seq<string>, cols: seq<Column>, j: nat, i: nat)
    requires InOrder(TextBefore, rest) && AreColumns(lower, fields, rest, cols) && |fields| <= j < i < |cols|
    ensures cols[j].key != cols[i].key
  {
    var p := Keys(lower, fields, rest, true, |rest|);
    var l := Keys(lower, fields, rest, false, |rest|);
    var x, y := j - |fields|, i - |fields|;
    assert cols[j].key == (p + l)[x] && cols[i].key == (p + l)[y];
    if y < |p| {
      KeysDistinct(lower, fields, rest, true, |rest|, x, y);
      BeforeDiffers(p[x], p[y]);
    } else if x >= |p| {
      KeysDistinct(lower, fields, rest, false, |rest|, x - |p|, y - |p|);
      BeforeDiffers(l[x - |p|], l[y - |p|]);
    } else {
      PartsDiffer(lower, fields, rest, x, y - |p|);
    }
  }

  /** No key is plain and not. */
  lemma {:induction false} PartsDiffer(lower: char -> char, fields: seq<Field>, rest: seq<string>, x: nat, y: nat)
    requires InOrder(TextBefore, rest)
    requires x < |Keys(lower, fields, rest, true, |rest|)| && y < |Keys(lower, fields, rest, false, |rest|)|
    ensures Keys(lower, fields, rest, true, |rest|)[x] != Keys(lower, fields, rest, false, |rest|)[y]
  {
    var a := KeysFrom(lower, fields, rest, true, |rest|, x);
    var b := KeysFrom(lower, fields, rest, false, |rest|, y);
    if a < b { BeforeDiffers(rest[a], rest[b]); }
    if b < a { BeforeDiffers(rest[b], rest[a]); }
  }

  /** A key's column is named by its text exactly when nothing before it has that
      text but for case. */
  lemma {:induction false} NamedByText(lower: char -> char, fields: seq<Field>, rest: seq<string>, cols: seq<Column>, i: nat, r: nat)
    requires InOrder(TextBefore, rest) && AreColumns(lower, fields, rest, cols)
    requires |fields| <= i < |cols| && r < |rest| && cols[i].key == rest[r]
    requires IsPlain(lower, fields, rest, r) <==> i < |fields| + |Keys(lower, fields, rest, true, |rest|)|
    ensures cols[i].name == Visible(rest[r]) <==> IsPlain(lower, fields, rest, r)
    decreases i, 2
  {
    assert NameOk(lower, cols[..i], cols[i]);
    var n: nat :| IsFirstFree(lower, cols[..i], cols[i], n);
    if IsPlain(lower, fields, rest, r) {
      if n > 0 {
        assert HasName(lower, cols[..i], Suffixed(cols[i].key, 0));
        var j :| 0 <= j < i && Lower(lower, cols[..i][j].name) == Lower(lower, Visible(rest[r]));
        if j >= |fields| {
          PlainBefore(lower, fields, rest, cols, j, i, r);
        }
      }
    } else {
      TextTaken(lower, fields, rest, cols, i, r);
    }
  }

  lemma {:induction false} PlainBefore(lower: char -> char, fields: seq<Field>, rest: seq<string>, cols: seq<Column>, j: nat, i: nat, r: nat)
    requires InOrder(TextBefore, rest) && AreColumns(lower, fields, rest, cols)
    requires |fields| <= j < i < |fields| + |Keys(lower, fields, rest, true, |rest|)|
    requires r < |rest| && cols[i].key == rest[r] && IsPlain(lower, fields, rest, r)
    ensures Lower(lower, cols[j].name) != Lower(lower, Visible(rest[r]))
    decreases j, 3
  {
    var q := RestOfColumn(lower, fields, rest, cols, j);
    NamedByText(lower, fields, rest, cols, j, q);
    KeysDistinct(lower, fields, rest, true, |rest|, j - |fields|, i - |fields|);
    CompareTextAntisymmetric(rest[q], rest[r]);
  }

  lemma {:induction false} TextTaken(lower: char -> char, fields: seq<Field>, rest: seq<string>, cols: seq<Column>, i: nat, r: nat)
    requires InOrder(TextBefore, rest) && AreColumns(lower, fields, rest, cols)
    requires |fields| + |Keys(lower, fields, rest, true, |rest|)| <= i < |cols| && r < |rest| && cols[i].key == rest[r]
    requires !IsPlain(lower, fields, rest, r)
    ensures cols[i].name != Visible(rest[r])
    decreases i, 1
  {
    var t := Lower(lower, Visible(rest[r]));
    if f :| 0 <= f < |fields| && Lower(lower, fields[f].name) == t {
      assert Lower(lower, cols[f].name) == t;
    } else {
      var j := FirstClash(lower, fields, rest, r);
      var c := KeyHasColumn(lower, fields, rest, cols, j);
      NamedByText(lower, fields, rest, cols, c, j);
      assert Lower(lower, cols[c].name) == t;
    }
  }

  /** The first key with a text, but for case, is plain unless a field has it. */
  lemma {:induction false} FirstClash(lower: char -> char, fields: seq<Field>, rest: seq<string>, r: nat) returns (j: nat)
    requires r < |rest| && forall f :: 0 <= f < |fields| ==> Lower(lower, fields[f].name) != Lower(lower, Visible(rest[r]))
    ensures j <= r && IsPlain(lower, fields, rest, j) && Lower(lower, Visible(rest[j])) == Lower(lower, Visible(rest[r]))
  {
    j := 0;
    while Lower(lower, Visible(rest[j])) != Lower(lower, Visible(rest[r]))
      invariant j <= r
      invariant forall k :: 0 <= k < j ==> Lower(lower, Visible(rest[k])) != Lower(lower, Visible(rest[r]))
      decreases r - j
    {
      j := j + 1;
    }
  }

  /** A field, or a key of the log before k, has k's text but for case. */
  ghost predicate Clashes(lower: char -> char, fields: seq<Field>, keys: set<string>, k: string) {
    || (exists f :: 0 <= f < |fields| && Lower(lower, fields[f].name) == Lower(lower, Visible(k)))
    || (exists j :: j in keys && !IsField(fields, j) && TextBefore(j, k) && Lower(lower, Visible(j)) == Lower(lower, Visible(k)))
  }

  lemma {:induction false} PlainIffNoClash(lower: char -> char, fields: seq<Field>, keys: set<string>, rest: seq<string>, r: nat)
    requires IsRest(fields, keys, rest) && r < |rest|
    ensures IsPlain(lower, fields, rest, r) <==> !Clashes(lower, fields, keys, rest[r])
  {
    forall j | j in keys && !IsField(fields, j) && TextBefore(j, rest[r])
      ensures exists x :: 0 <= x < r && rest[x] == j
    {
      assert j in rest;
      var x :| 0 <= x < |rest| && rest[x] == j;
      BeforeDiffers(j, rest[r]);
      CompareTextAntisymmetric(j, rest[r]);
    }
    forall x | 0 <= x < r
      ensures rest[x] in keys && !IsField(fields, rest[x]) && TextBefore(rest[x], rest[r])
    {
      assert rest[x] in rest;
    }
  }

  /** In which logs a key's column has the key's own text for its name. */
  lemma {:induction false} NameWithinLog(lower: char -> char, fields: seq<Field>, keys: set<string>, rest: seq<string>, cols: seq<Column>, i: nat)
    requires IsRest(fields, keys, rest) && AreColumns(lower, fields, rest, cols) && |fields| <= i < |cols|
    ensures cols[i].name == Visible(cols[i].key) <==> !Clashes(lower, fields, keys, cols[i].key)
  {
    var r := RestOfColumn(lower, fields, rest, cols, i);
    NamedByText(lower, fields, rest, cols, i, r);
    PlainIffNoClash(lower, fields, keys, rest, r);
  }
}
