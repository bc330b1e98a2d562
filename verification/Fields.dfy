/** The fixed columns of every file, and two logs whose merge is not the dump of
    their lines. */
module Fields {
  import opened Rows
  import opened Segments
  import opened Columns
  import opened NamedRows
  import opened LogNames

  const FIELDS: seq<Field> := [
    Field("v", "BIGINT"), Field("id", "VARCHAR"), Field("project_id", "BIGINT"), Field("family", "VARCHAR"),
    Field("event_name", "VARCHAR"), Field("ts", "TIMESTAMP"), Field("day", "DATE"),
    Field("received_at", "TIMESTAMP"), Field("kind", "VARCHAR"), Field("actor_id", "VARCHAR"),
    Field("actor_kind", "VARCHAR"), Field("user_id", "VARCHAR"), Field("group_id", "VARCHAR"),
    Field("session_id", "VARCHAR"), Field("install_id", "VARCHAR"), Field("user_name", "VARCHAR"),
    Field("group_name", "VARCHAR"), Field("host", "VARCHAR"), Field("path", "VARCHAR"),
    Field("referrer_source", "VARCHAR"), Field("utm_source", "VARCHAR"), Field("utm_medium", "VARCHAR"),
    Field("utm_campaign", "VARCHAR"), Field("platform", "VARCHAR"), Field("os", "VARCHAR"),
    Field("os_version", "VARCHAR"), Field("os_name", "VARCHAR"), Field("browser", "VARCHAR"),
    Field("browser_version", "VARCHAR"), Field("browser_locale", "VARCHAR"), Field("app_version", "VARCHAR"),
    Field("app_locale", "VARCHAR"), Field("device", "VARCHAR"), Field("device_model", "VARCHAR"),
    Field("display_width", "BIGINT"), Field("display_height", "BIGINT"), Field("country", "VARCHAR"),
    Field("consent", "BIGINT"), Field("value", "DOUBLE"), Field("measure", "VARCHAR"),
    Field("sample_rate", "DOUBLE")
  ]

  function AsciiLower(c: char): char {
    if 'A' <= c <= 'Z' then c + ('a' - 'A') else c
  }

  // ----- the fields are such as columnsOf needs

  ghost predicate IsSmall(s: string) {
    forall i :: 0 <= i < |s| ==> AsciiLower(s[i]) == s[i]
  }

  lemma {:induction false} SmallIsLower(s: string)
    requires IsSmall(s)
    ensures Lower(AsciiLower, s) == s
  {
  }

  lemma {:induction false} SmallTo11(f: nat)
    requires f < 11
    ensures IsSmall(FIELDS[f].name)
  {
  }

  lemma {:induction false} SmallTo21(f: nat)
    requires 11 <= f < 21
    ensures IsSmall(FIELDS[f].name)
  {
  }

  lemma {:induction false} SmallTo31(f: nat)
    requires 21 <= f < 31
    ensures IsSmall(FIELDS[f].name)
  {
  }

  lemma {:induction false} SmallTo41(f: nat)
    requires 31 <= f < |FIELDS|
    ensures IsSmall(FIELDS[f].name)
  {
  }

  lemma {:induction false} FieldsAreLower(f: nat)
    requires f < |FIELDS|
    ensures Lower(AsciiLower, FIELDS[f].name) == FIELDS[f].name
  {
    if f < 11 { SmallTo11(f); } else if f < 21 { SmallTo21(f); } else if f < 31 { SmallTo31(f); } else { SmallTo41(f); }
    SmallIsLower(FIELDS[f].name);
  }

  // Names of one length, which might be equal.
  lemma {:induction false} ShortApart(i: nat, j: nat)
    requires i < j < |FIELDS| && |FIELDS[i].name| == |FIELDS[j].name| < 7
    ensures FIELDS[i].name != FIELDS[j].name
  {
  }

  lemma {:induction false} MiddleApart(i: nat, j: nat)
    requires i < j < |FIELDS| && 7 <= |FIELDS[i].name| == |FIELDS[j].name| < 9
    ensures FIELDS[i].name != FIELDS[j].name
  {
  }

  lemma {:induction false} LongerApart(i: nat, j: nat)
    requires i < j < |FIELDS| && 9 <= |FIELDS[i].name| == |FIELDS[j].name| < 11
    ensures FIELDS[i].name != FIELDS[j].name
  {
  }

  lemma {:induction false} LongestApart(i: nat, j: nat)
    requires i < j < |FIELDS| && 11 <= |FIELDS[i].name| == |FIELDS[j].name|
    ensures FIELDS[i].name != FIELDS[j].name
  {
  }

  lemma {:induction false} FieldsApart(i: nat, j: nat)
    requires i < j < |FIELDS|
    ensures FIELDS[i].name != FIELDS[j].name
  {
    var n := |FIELDS[i].name|;
    if n == |FIELDS[j].name| {
      if n < 7 { ShortApart(i, j); } else if n < 9 { MiddleApart(i, j); } else if n < 11 { LongerApart(i, j); } else { LongestApart(i, j); }
    }
  }

  lemma {:induction false} NoneIsAttribute(f: nat)
    requires f < |FIELDS|
    ensures FIELDS[f].name != "attr_a" && FIELDS[f].name != "attr_A"
  {
  }

  ghost predicate NoneNamed(fields: seq<Field>, n: string) {
    forall f {:trigger fields[f]} :: 0 <= f < |fields| ==> Lower(AsciiLower, fields[f].name) != n
  }

  /** No two fields are equal but for case, and none is such an attribute. */
  ghost predicate Fit(fields: seq<Field>) {
    FieldsOk(AsciiLower, fields) && NoneNamed(fields, "attr_a") && !IsField(fields, "attr_a") && !IsField(fields, "attr_A")
  }

  lemma {:induction false} FieldsAreOk()
    ensures Fit(FIELDS)
  {
    forall i, j | 0 <= i < j < |FIELDS|
      ensures Lower(AsciiLower, FIELDS[i].name) != Lower(AsciiLower, FIELDS[j].name)
    {
      FieldsAreLower(i);
      FieldsAreLower(j);
      FieldsApart(i, j);
    }
    forall f | 0 <= f < |FIELDS|
      ensures Lower(AsciiLower, FIELDS[f].name) != "attr_a"
      ensures FIELDS[f].name != "attr_a" && FIELDS[f].name != "attr_A"
    {
      FieldsAreLower(f);
      NoneIsAttribute(f);
    }
  }

  // ----- two logs

  lemma {:induction false} OneText()
    ensures Lower(AsciiLower, "attr_A") == Lower(AsciiLower, "attr_a") == "attr_a"
  {
    SmallIsLower("attr_a");
    var x := Lower(AsciiLower, "attr_A");
    assert x[5] == AsciiLower('A') == 'a' && x[..5] == Lower(AsciiLower, "attr_") == "attr_" by { SmallIsLower("attr_"); }
    assert x == x[..5] + [x[5]];
  }

  lemma {:induction false} TextOfKeys()
    ensures Visible("attr_a") == "attr_a" && Visible("attr_A") == "attr_A"
    ensures TextBefore("attr_A", "attr_a") && !TextBefore("attr_a", "attr_a")
  {
    VisibleOf("attr_a");
    VisibleOf("attr_A");
    AfterHead("attr_", "A", "a");
    assert "attr_" + "A" == "attr_A" && "attr_" + "a" == "attr_a";
    CompareTextAntisymmetric("attr_a", "attr_a");
  }

  lemma {:induction false} VisibleOf(s: string)
    requires forall i :: 0 <= i < |s| ==> s[i] != 0 as char
    ensures Visible(s) == s
  {
    if s != "" {
      VisibleOf(s[1..]);
      assert s == [s[0]] + s[1..];
    }
  }

  lemma {:induction false} AfterHead(head: string, a: string, b: string)
    ensures CompareText(head + a, head + b) == CompareText(a, b)
  {
    if head != "" {
      AfterHead(head[1..], a, b);
      assert (head + a)[1..] == head[1..] + a && (head + b)[1..] == head[1..] + b;
    } else {
      assert head + a == a && head + b == b;
    }
  }

  const BOTH: set<string> := {"attr_A", "attr_a"}
  const ONE: set<string> := {"attr_a"}

  lemma {:induction false} KeysClash(fields: seq<Field>)
    requires Fit(fields)
    ensures !Clashes(AsciiLower, fields, ONE, "attr_a") && Clashes(AsciiLower, fields, BOTH, "attr_a")
  {
    TextOfKeys();
    OneText();
    assert "attr_A" in BOTH;
  }

  /** The second log's key has its own text for a name, among all keys it has not. */
  lemma {:induction false} NamesOfKey(fields: seq<Field>, two: seq<Column>, all: seq<Column>)
    requires Fit(fields) && AreKeyColumns(AsciiLower, fields, ONE, two) && AreKeyColumns(AsciiLower, fields, BOTH, all)
    ensures NameOf(two, "attr_a") == "attr_a" && Lower(AsciiLower, NameOf(all, "attr_a")) != "attr_a"
  {
    KeysClash(fields);
    TextOfKeys();
    PlainIffApart(AsciiLower, fields, ONE, two, "attr_a");
    PlainIffApart(AsciiLower, fields, BOTH, all, "attr_a");
    var n := NameIsSuffixed(AsciiLower, fields, BOTH, all, "attr_a");
    SuffixesDiffer(AsciiLower, "attr_a", n, 0);
    OneText();
  }

  lemma {:induction false} OtherCells(fields: seq<Field>, all: seq<Column>, k: string)
    requires Fit(fields) && AreKeyColumns(AsciiLower, fields, BOTH, all) && IsField(fields, k)
    ensures Lower(AsciiLower, NameOf(all, k)) != "attr_a"
  {
    KeyColumnsOk(AsciiLower, fields, BOTH, all);
    var f :| 0 <= f < |fields| && fields[f].name == k;
  }

  /** So its cell is in the column of that name, and would be in another. */
  lemma {:induction false} CellOfKey(fields: seq<Field>, two: seq<Column>, all: seq<Column>, r: Row)
    requires Fit(fields) && AreKeyColumns(AsciiLower, fields, ONE, two) && AreKeyColumns(AsciiLower, fields, BOTH, all)
    requires "attr_a" in r.cells && forall k :: k in r.cells ==> k == "attr_a" || IsField(fields, k)
    ensures "attr_a" in Named(AsciiLower, two, r).cells && "attr_a" !in Named(AsciiLower, all, r).cells
  {
    OneText();
    NamesOfKey(fields, two, all);
    KeyColumnsOk(AsciiLower, fields, ONE, two);
    CellNamed(AsciiLower, two, r.cells, "attr_a");
    forall k | k in r.cells
      ensures Lower(AsciiLower, NameOf(all, k)) != "attr_a"
    {
      if k != "attr_a" { OtherCells(fields, all, k); }
    }
  }

  ghost predicate AreTwo(fields: seq<Field>, keys: seq<set<string>>, cols: seq<seq<Column>>, all: seq<Column>) {
    && |keys| == |cols| == 2 && keys[0] == BOTH && keys[1] == ONE
    && AreKeyColumns(AsciiLower, fields, keys[0], cols[0]) && AreKeyColumns(AsciiLower, fields, keys[1], cols[1])
    && AreKeyColumns(AsciiLower, fields, BOTH, all)
  }

  lemma {:induction false} KeysOfTwo(keys: seq<set<string>>)
    requires |keys| == 2 && keys[0] == BOTH && keys[1] == ONE
    ensures AllKeys(keys) == BOTH
  {
    assert forall k :: k in BOTH ==> k in keys[0];
    assert ONE <= BOTH;
  }

  lemma {:induction false} NoKeyIsField(fields: seq<Field>, keys: seq<set<string>>, i: nat, k: string)
    requires Fit(fields) && |keys| == 2 && keys[0] == BOTH && keys[1] == ONE && i < 2 && k in keys[i]
    ensures !IsField(fields, k)
  {
  }

  lemma {:induction false} TwoNamings(fields: seq<Field>, keys: seq<set<string>>, cols: seq<seq<Column>>, all: seq<Column>)
    requires Fit(fields) && AreTwo(fields, keys, cols, all)
    ensures AreNamings(AsciiLower, fields, keys, cols, all)
  {
    KeysOfTwo(keys);
    forall i | 0 <= i < |cols|
      ensures AreKeyColumns(AsciiLower, fields, keys[i], cols[i])
    {
      assert i == 0 || i == 1;
    }
    forall i, k | 0 <= i < |keys| && k in keys[i]
      ensures !IsField(fields, k)
    {
      NoKeyIsField(fields, keys, i, k);
    }
  }

  lemma {:induction false} RowOfKey(fields: seq<Field>, r: Row)
    requires KeysOf(fields, [r]) == ONE
    ensures "attr_a" in r.cells && forall k :: k in r.cells ==> k == "attr_a" || IsField(fields, k)
  {
    assert r in [r];
    assert "attr_a" in KeysOf(fields, [r]);
    forall k | k in r.cells && !IsField(fields, k)
      ensures k == "attr_a"
    {
      assert k in KeysOf(fields, [r]);
    }
  }

  lemma {:induction false} TwoLogs(fields: seq<Field>, logs: seq<seq<Row>>, keys: seq<set<string>>, r1: Row, r2: Row)
    requires KeysOf(fields, [r1]) == BOTH && KeysOf(fields, [r2]) == ONE && r1.id != r2.id
    requires |logs| == |keys| == 2 && logs[0] == [r1] && logs[1] == [r2] && keys[0] == BOTH && keys[1] == ONE
    ensures AreLogs(fields, logs, keys) && OnlyOne(logs, 1, r2)
  {
  }

  /** A log whose lines have the attributes "A" and "a", and one with "a" alone: the
      second's cell lands in the column "attr_a", which is the first's "A" but for
      case, where one dump of both logs puts it in another. */
  method MergedRowsDiffer(ghost logs: seq<seq<Row>>, ghost r1: Row, ghost r2: Row) returns (cols: seq<seq<Column>>, all: seq<Column>)
    requires KeysOf(FIELDS, [r1]) == BOTH && KeysOf(FIELDS, [r2]) == ONE && r1.id != r2.id
    requires |logs| == 2 && logs[0] == [r1] && logs[1] == [r2]
    ensures AreNamings(AsciiLower, FIELDS, [BOTH, ONE], cols, all) && AreLogs(FIELDS, logs, [BOTH, ONE])
    ensures "attr_a" in Named(AsciiLower, cols[1], r2).cells && "attr_a" !in Named(AsciiLower, all, r2).cells
    ensures Named(AsciiLower, all, r2) in DumpFile(AsciiLower, all, Concat(logs)).rows
    ensures Named(AsciiLower, all, r2) !in Merged(AsciiLower, FIELDS, cols, logs).rows
  {
    FieldsAreOk();
    var one := ColumnsOf(AsciiLower, FIELDS, BOTH);
    var two := ColumnsOf(AsciiLower, FIELDS, ONE);
    all := ColumnsOf(AsciiLower, FIELDS, BOTH);
    cols := [one, two];
    TwoNamings(FIELDS, [BOTH, ONE], cols, all);
    RowOfKey(FIELDS, r2);
    CellOfKey(FIELDS, two, all, r2);
    TwoLogs(FIELDS, logs, [BOTH, ONE], r1, r2);
    RowDiffers(AsciiLower, FIELDS, cols, all, logs, 1, r2);
  }
}
