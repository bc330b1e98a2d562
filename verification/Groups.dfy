/** Group ids: each tuple of dimension values met gets a dense id, by way of a
    number within its batch and of an encoding across batches. */
module Groups {
  import opened Rows
  import opened Bytes
  import opened Radix

  datatype DimVal = NullVal | Text(s: seq<Byte>)

  // ----- a tuple as bytes

  /** NULL is a byte; a text, its length and it, after another. */
  function EncodeVal(v: DimVal): seq<Byte> {
    match v
    case NullVal => [0]
    case Text(s) => [1] + Uvarint(|s|) + s
  }

  function Flatten<T>(bytes: T -> seq<Byte>, t: seq<T>): seq<Byte> {
    if t == [] then [] else bytes(t[0]) + Flatten(bytes, t[1..])
  }

  function Encode(t: seq<DimVal>): seq<Byte> {
    Flatten((v: DimVal) => EncodeVal(v), t)
  }

  lemma {:induction false} FlattenMore<T>(bytes: T -> seq<Byte>, t: seq<T>, v: T)
    ensures Flatten(bytes, t + [v]) == Flatten(bytes, t) + bytes(v)
  {
    if t == [] {
      assert (t + [v])[1..] == [] && Flatten(bytes, []) == [];
    } else {
      assert (t + [v])[1..] == t[1..] + [v];
      FlattenMore(bytes, t[1..], v);
    }
  }

  lemma {:induction false} SameSplit(a: seq<Byte>, p: seq<Byte>, b: seq<Byte>, q: seq<Byte>)
    requires a + p == b + q && |a| == |b|
    ensures a == b && p == q
  {
    assert a == (a + p)[..|a|] && b == (b + q)[..|b|];
    assert p == (a + p)[|a|..] && q == (b + q)[|b|..];
  }

  lemma {:induction false} TextInjective(s: seq<Byte>, p: seq<Byte>, t: seq<Byte>, q: seq<Byte>)
    requires Uvarint(|s|) + (s + p) == Uvarint(|t|) + (t + q)
    ensures s == t && p == q
  {
    var b := Uvarint(|s|) + (s + p);
    BeginsWithUvarint(b, |s|, s + p);
    BeginsWithUvarint(b, |t|, t + q);
    SameSplit(s, p, t, q);
  }

  lemma {:induction false} TextBytes(s: seq<Byte>, p: seq<Byte>)
    ensures EncodeVal(DimVal.Text(s)) + p == [1] + (Uvarint(|s|) + (s + p))
  {
  }

  /** A value's bytes tell it and where they end. */
  lemma {:induction false} ValInjective(x: DimVal, p: seq<Byte>, y: DimVal, q: seq<Byte>)
    requires EncodeVal(x) + p == EncodeVal(y) + q
    ensures x == y && p == q
  {
    assert (EncodeVal(x) + p)[0] == (EncodeVal(y) + q)[0];
    if x.NullVal? {
      SameSplit([0], p, [0], q);
    } else {
      TextBytes(x.s, p);
      TextBytes(y.s, q);
      SameSplit([1], Uvarint(|x.s|) + (x.s + p), [1], Uvarint(|y.s|) + (y.s + q));
      TextInjective(x.s, p, y.s, q);
    }
  }

  /** Different tuples, different encodings. */
  lemma {:induction false} EncodeInjective(a: seq<DimVal>, b: seq<DimVal>)
    requires Encode(a) == Encode(b)
    ensures a == b
  {
    if a != [] && b != [] {
      ValInjective(a[0], Encode(a[1..]), b[0], Encode(b[1..]));
      EncodeInjective(a[1..], b[1..]);
      assert a == [a[0]] + a[1..] && b == [b[0]] + b[1..];
    }
  }

  // ----- the table

  predicate IsResolved(vals: seq<seq<DimVal>>, g: int, tuple: seq<DimVal>) {
    g == -1 || (0 <= g < |vals| && vals[g] == tuple)
  }

  /** Each tuple's id, or none where it had none before. */
  ghost predicate AreResolved(vals: seq<seq<DimVal>>, out: seq<int>, tuples: seq<seq<DimVal>>, before: seq<seq<DimVal>>) {
    && |out| <= |tuples|
    && (forall i {:trigger out[i]} :: 0 <= i < |out| ==> IsResolved(vals, out[i], tuples[i]) && (out[i] == -1 ==> tuples[i] !in before))
  }

  lemma {:induction false} OneResolved(vals: seq<seq<DimVal>>, more: seq<seq<DimVal>>, out: seq<int>, tuples: seq<seq<DimVal>>,
                                       before: seq<seq<DimVal>>, id: int)
    requires AreResolved(vals, out, tuples, before) && |out| < |tuples| && before <= vals <= more
    requires IsResolved(more, id, tuples[|out|]) && (id == -1 ==> tuples[|out|] !in more)
    ensures AreResolved(more, out + [id], tuples, before)
  {
    assert before <= more;
  }

  class GroupTable {
    const max: nat
    const over: nat -> bool // whether the memory is past its budget the n-th time it is looked at
    var looks: nat
    var ids: map<seq<Byte>, nat>
    var vals: seq<seq<DimVal>>
    var dropped: bool

    /** ids and vals are one another's inverse. */
    ghost predicate Valid()
      reads this
    {
      && (forall k {:trigger ids[k]} {:trigger k in ids} :: k in ids ==> ids[k] < |vals| && Encode(vals[ids[k]]) == k)
      && (forall g {:trigger vals[g]} :: 0 <= g < |vals| ==> Encode(vals[g]) in ids && ids[Encode(vals[g])] == g)
      && |vals| <= max
    }

    constructor (max: nat, over: nat -> bool)
      ensures Valid() && vals == [] && !dropped && this.max == max && this.over == over
    {
      this.max, this.over, looks, ids, vals, dropped := max, over, 0, map[], [], false;
    }

    /** The looks from c0 to c1 that found the memory within its budget. */
    ghost function Grants(c0: nat, c1: nat): set<nat> {
      set n | c0 <= n < c1 && !over(n)
    }

    lemma {:induction false} NoGrants(c: nat)
      ensures |Grants(c, c)| == 0
    {
    }

    lemma {:induction false} GrantsMore(c0: nat, c: nat)
      requires c0 <= c
      ensures |Grants(c0, c + 1)| == |Grants(c0, c)| + if over(c) then 0 else 1
    {
      assert Grants(c0, c + 1) == if over(c) then Grants(c0, c) else Grants(c0, c) + {c};
    }

    lemma {:induction false} GrantsJoin(c0: nat, c1: nat, c2: nat)
      requires c0 <= c1 <= c2
      ensures |Grants(c0, c2)| == |Grants(c0, c1)| + |Grants(c1, c2)|
    {
      assert Grants(c0, c2) == Grants(c0, c1) + Grants(c1, c2);
      assert Grants(c0, c1) !! Grants(c1, c2);
    }

    /** The table is full, or since look c the memory was past its budget. */
    ghost predicate Capped(c: nat)
      reads this
    {
      |vals| >= max || exists n :: c <= n < looks && over(n)
    }

    /** The group of a tuple, met before or now; none past the table's size or the
        memory's bound. */
    method ResolveOne(key: seq<Byte>, tuple: seq<DimVal>) returns (id: int)
      requires Valid() && key == Encode(tuple)
      modifies this
      ensures Valid() && old(vals) <= vals && old(looks) <= looks
      ensures id == -1 || (0 <= id < |vals| && vals[id] == tuple)
      ensures id == -1 <==> tuple !in vals
      ensures id == -1 ==> dropped && vals == old(vals) && Capped(old(looks))
      ensures id != -1 ==> dropped == old(dropped)
      ensures tuple !in old(vals) ==> (id == -1 <==> |old(vals)| >= max || over(old(looks)))
      ensures |vals| == |old(vals)| + |Grants(old(looks), looks)|
    {
      NoGrants(looks);
      if key in ids {
        id := ids[key];
        EncodeInjective(tuple, vals[id]);
        return;
      }
      assert tuple !in vals;
      if |vals| >= max {
        dropped := true;
        return -1;
      }
      looks := looks + 1;
      GrantsMore(looks - 1, looks - 1);
      if over(looks - 1) {
        dropped := true;
        return -1;
      }
      id := |vals|;
      ids := ids[key := |vals|];
      vals := vals + [tuple];
    }

    /** resolve: each tuple's group id, -1 past the caps. */
    method Resolve(keys: seq<seq<Byte>>, tuples: seq<seq<DimVal>>) returns (out: seq<int>)
      requires Valid() && |keys| == |tuples| && forall i :: 0 <= i < |keys| ==> keys[i] == Encode(tuples[i])
      modifies this
      ensures Valid() && old(vals) <= vals && |out| == |keys| && old(looks) <= looks
      ensures AreResolved(vals, out, tuples, old(vals))
      ensures -1 in out ==> dropped && Capped(old(looks))
      ensures |vals| == |old(vals)| + |Grants(old(looks), looks)|
    {
      out := [];
      NoGrants(looks);
      for i := 0 to |keys|
        invariant |vals| == |old(vals)| + |Grants(old(looks), looks)|
        invariant Valid() && old(vals) <= vals && |out| == i && old(looks) <= looks
        invariant -1 in out ==> dropped && Capped(old(looks))
        invariant AreResolved(vals, out, tuples, old(vals))
      {
        ghost var before, c := vals, looks;
        var id := ResolveOne(keys[i], tuples[i]);
        GrantsJoin(old(looks), c, looks);
        OneResolved(before, vals, out, tuples, old(vals), id);
        out := out + [id];
      }
    }

    /** Two ids the table gave are one exactly when their tuples are. */
    lemma {:induction false} SameGroup(g: nat, h: nat)
      requires Valid() && g < |vals| && h < |vals|
      ensures g == h <==> vals[g] == vals[h]
    {
    }
  }

  // ----- a batch's columns

  /** A dimension's column of a batch: its dictionary, and each row's place in it,
      -1 for NULL; no places, all NULL. */
  datatype DimView = DimView(dict: seq<seq<Byte>>, idx: Option<seq<int>>)

  ghost predicate RowOk(views: seq<DimView>, i: nat) {
    forall j :: 0 <= j < |views| && views[j].idx.Some? ==>
      i < |views[j].idx.value| && -1 <= views[j].idx.value[i] < |views[j].dict|
  }

  function PlaceAt(v: DimView, i: nat): int
    requires v.idx.Some? ==> i < |v.idx.value|
  {
    if v.idx.None? then -1 else v.idx.value[i]
  }

  function ValAt(v: DimView, i: nat): DimVal
    requires v.idx.Some? ==> i < |v.idx.value| && v.idx.value[i] < |v.dict|
  {
    if PlaceAt(v, i) < 0 then NullVal else DimVal.Text(v.dict[PlaceAt(v, i)])
  }

  /** The row's dimension values. */
  function TupleAt(views: seq<DimView>, i: nat): seq<DimVal>
    requires RowOk(views, i)
  {
    seq(|views|, j requires 0 <= j < |views| => ValAt(views[j], i))
  }

  function Radixes(views: seq<DimView>): seq<nat> {
    seq(|views|, j requires 0 <= j < |views| => |views[j].dict| + 1)
  }

  function DigitsAt(views: seq<DimView>, i: nat): (ds: seq<nat>)
    requires RowOk(views, i)
    ensures AreDigits(Radixes(views), ds)
  {
    seq(|views|, j requires 0 <= j < |views| => PlaceAt(views[j], i) + 1)
  }

  /** A row's number within its batch. */
  function LocalKey(views: seq<DimView>, i: nat): nat
    requires RowOk(views, i)
  {
    Number(Radixes(views), DigitsAt(views, i), |views|)
  }

  /** Rows of one number have one tuple. */
  lemma {:induction false} LocalKeyTells(views: seq<DimView>, i: nat, k: nat)
    requires RowOk(views, i) && RowOk(views, k) && LocalKey(views, i) == LocalKey(views, k)
    ensures TupleAt(views, i) == TupleAt(views, k)
  {
    var a, b := DigitsAt(views, i), DigitsAt(views, k);
    NumberInjective(Radixes(views), a, b, |views|);
    forall j | 0 <= j < |views|
      ensures PlaceAt(views[j], i) == PlaceAt(views[j], k)
    {
      assert a[..|views|][j] == b[..|views|][j];
    }
  }

  /** The multiplier of each column and the product of all; an error when that
      does not fit 64 bits. */
  method Multipliers(views: seq<DimView>) returns (ok: bool, mult: seq<nat>, radix: nat)
    ensures ok <==> Product(Radixes(views), |views|) <= MAX_UINT64
    ensures ok ==> radix == Product(Radixes(views), |views|) && |mult| == |views|
    ensures ok ==> forall j :: 0 <= j < |mult| ==> mult[j] == Product(Radixes(views), j)
  {
    mult, radix := [], 1;
    ghost var rs := Radixes(views);
    for j := 0 to |views|
      invariant radix == Product(rs, j) <= MAX_UINT64
      invariant |mult| == j && forall k :: 0 <= k < j ==> mult[k] == Product(rs, k)
    {
      var r := |views[j].dict| + 1;
      ProductStep(rs, j);
      if radix > MAX_UINT64 / r { return false, [], 0; }
      mult := mult + [radix];
      radix := radix * r;
    }
    ok := true;
  }

  /** local: each value's place + 1, in mixed radix; no sum on the way overflows. */
  method Local(views: seq<DimView>, mult: seq<nat>, i: nat) returns (k: nat)
    requires RowOk(views, i) && |mult| == |views| && Product(Radixes(views), |views|) <= MAX_UINT64
    requires forall j :: 0 <= j < |mult| ==> mult[j] == Product(Radixes(views), j)
    ensures k == LocalKey(views, i) && k < Product(Radixes(views), |views|) <= MAX_UINT64
  {
    k := 0;
    ghost var rs, ds := Radixes(views), DigitsAt(views, i);
    for j := 0 to |views|
      invariant k == Number(rs, ds, j) <= MAX_UINT64
    {
      NumberStep(rs, ds, j);
      k := k + (PlaceAt(views[j], i) + 1) * mult[j];
    }
    NumberBelow(rs, ds, |views|);
  }

  // ----- the batch's distinct tuples

  ghost predicate RowsOk(views: seq<DimView>, rows: seq<nat>) {
    forall k {:trigger rows[k]} :: 0 <= k < |rows| ==> RowOk(views, rows[k])
  }

  /** m tells the place in firsts of a row of each number met. */
  ghost predicate TellsFirst(views: seq<DimView>, firsts: seq<nat>, m: map<nat, nat>) {
    && RowsOk(views, firsts)
    && (forall lk {:trigger m[lk]} :: lk in m ==> m[lk] < |firsts| && LocalKey(views, firsts[m[lk]]) == lk)
    && (forall i {:trigger firsts[i]} :: 0 <= i < |firsts| ==> LocalKey(views, firsts[i]) in m && m[LocalKey(views, firsts[i])] == i)
  }

  /** Each selected row's slot holds a row of its number. */
  ghost predicate SlotsOk(views: seq<DimView>, sel: seq<nat>, firsts: seq<nat>, slot: seq<nat>)
    requires RowsOk(views, sel) && RowsOk(views, firsts)
  {
    && |slot| <= |sel|
    && forall k {:trigger slot[k]} :: 0 <= k < |slot| ==> slot[k] < |firsts| && LocalKey(views, firsts[slot[k]]) == LocalKey(views, sel[k])
  }

  /** The dense table says what m does. */
  ghost predicate IsDense(dense: seq<int>, m: map<nat, nat>, radix: nat) {
    |dense| == radix && forall lk {:trigger dense[lk]} :: 0 <= lk < radix ==> dense[lk] == if lk in m then m[lk] else -1
  }

  /** A row of each distinct tuple, and each row's: by a table when there are few
      numbers, else by a map. */
  method Slots(views: seq<DimView>, mult: seq<nat>, radix: nat, sel: seq<nat>) returns (firsts: seq<nat>, slot: seq<nat>)
    requires RowsOk(views, sel) && |mult| == |views| && radix == Product(Radixes(views), |views|) <= MAX_UINT64
    requires forall j :: 0 <= j < |mult| ==> mult[j] == Product(Radixes(views), j)
    ensures RowsOk(views, firsts) && |slot| == |sel| && SlotsOk(views, sel, firsts, slot)
    ensures forall i, j :: 0 <= i < j < |firsts| ==> LocalKey(views, firsts[i]) != LocalKey(views, firsts[j])
    ensures forall i :: 0 <= i < |firsts| ==> firsts[i] in sel
  {
    firsts, slot := [], [];
    var isDense := radix <= 4 * |sel| + 1024;
    var dense: array<int> := new int[if isDense then radix else 0](_ => -1);
    var sparse: map<nat, nat> := map[];
    ghost var m: map<nat, nat> := map[];
    for k := 0 to |sel|
      invariant |slot| == k && TellsFirst(views, firsts, m) && SlotsOk(views, sel, firsts, slot)
      invariant forall j :: 0 <= j < |firsts| ==> firsts[j] in sel
      invariant if isDense then IsDense(dense[..], m, radix) else sparse == m
    {
      var i := sel[k];
      var lk := Local(views, mult, i);
      var s: int;
      if isDense {
        s := dense[..][lk];
      } else {
        s := if lk in sparse then sparse[lk] else -1;
      }
      assert s == if lk in m then m[lk] else -1;
      if s < 0 {
        s := |firsts|;
        FirstMore(views, sel, firsts, slot, m, i, lk);
        firsts := firsts + [i];
        m := m[lk := s];
        if isDense {
          dense[lk] := s;
        } else {
          sparse := sparse[lk := s];
        }
      }
      SlotMore(views, sel, firsts, slot, s);
      slot := slot + [s];
    }
  }

  lemma {:induction false} SlotMore(views: seq<DimView>, sel: seq<nat>, firsts: seq<nat>, slot: seq<nat>, s: nat)
    requires RowsOk(views, sel) && RowsOk(views, firsts) && SlotsOk(views, sel, firsts, slot) && |slot| < |sel|
    requires s < |firsts| && LocalKey(views, firsts[s]) == LocalKey(views, sel[|slot|])
    ensures SlotsOk(views, sel, firsts, slot + [s])
  {
  }

  lemma {:induction false} FirstMore(views: seq<DimView>, sel: seq<nat>, firsts: seq<nat>, slot: seq<nat>, m: map<nat, nat>, i: nat, lk: nat)
    requires RowsOk(views, sel) && TellsFirst(views, firsts, m) && SlotsOk(views, sel, firsts, slot)
    requires RowOk(views, i) && lk == LocalKey(views, i) && lk !in m
    ensures TellsFirst(views, firsts + [i], m[lk := |firsts|]) && SlotsOk(views, sel, firsts + [i], slot)
  {
  }

  /** A row's tuple and its encoding, value after value. */
  method EncodeRow(views: seq<DimView>, i: nat) returns (enc: seq<Byte>, t: seq<DimVal>)
    requires RowOk(views, i)
    ensures t == TupleAt(views, i) && enc == Encode(t)
  {
    enc, t := [], [];
    for j := 0 to |views|
      invariant |t| == j && (forall k :: 0 <= k < j ==> t[k] == ValAt(views[k], i)) && enc == Encode(t)
    {
      var v := ValAt(views[j], i);
      FlattenMore((x: DimVal) => EncodeVal(x), t, v);
      match v {
        case NullVal => enc := enc + [0];
        case Text(text) =>
          assert enc + [1] + Uvarint(|text|) + text == enc + EncodeVal(v);
          enc := enc + [1] + Uvarint(|text|) + text;
      }
      t := t + [v];
    }
    assert t == TupleAt(views, i);
  }

  /** Ids of rows are the ids of their tuples. */
  ghost predicate AreGroups(views: seq<DimView>, sel: seq<nat>, gids: seq<int>, vals: seq<seq<DimVal>>)
    requires RowsOk(views, sel)
  {
    && |gids| <= |sel|
    && forall k {:trigger gids[k]} :: 0 <= k < |gids| ==> gids[k] == -1 || (0 <= gids[k] < |vals| && vals[gids[k]] == TupleAt(views, sel[k]))
  }

  ghost predicate IsGreatest(g: int, gids: seq<int>) {
    (forall k :: 0 <= k < |gids| ==> gids[k] <= g) && g >= -1 && (g >= 0 ==> g in gids)
  }

  /** The tuple of each of firsts, and its encoding. */
  method EncodeRows(views: seq<DimView>, firsts: seq<nat>) returns (keys: seq<seq<Byte>>, tuples: seq<seq<DimVal>>)
    requires RowsOk(views, firsts)
    ensures |keys| == |tuples| == |firsts|
    ensures forall i :: 0 <= i < |firsts| ==> tuples[i] == TupleAt(views, firsts[i]) && keys[i] == Encode(tuples[i])
  {
    keys, tuples := [], [];
    for s := 0 to |firsts|
      invariant |keys| == |tuples| == s
      invariant forall i :: 0 <= i < s ==> tuples[i] == TupleAt(views, firsts[i]) && keys[i] == Encode(tuples[i])
    {
      var enc, t := EncodeRow(views, firsts[s]);
      keys, tuples := keys + [enc], tuples + [t];
    }
  }

  /** The rows left out have a tuple that is not among vals. */
  ghost predicate LeftOut(views: seq<DimView>, sel: seq<nat>, gids: seq<int>, vals: seq<seq<DimVal>>)
    requires RowsOk(views, sel) && |gids| <= |sel|
  {
    forall k {:trigger gids[k]} :: 0 <= k < |gids| && gids[k] == -1 ==> TupleAt(views, sel[k]) !in vals
  }

  /** Each row's id, its slot's. */
  method Assign(views: seq<DimView>, sel: seq<nat>, firsts: seq<nat>, slot: seq<nat>, resolved: seq<int>,
                ghost vals: seq<seq<DimVal>>, ghost before: seq<seq<DimVal>>) returns (gids: seq<int>, gmax: int)
    requires RowsOk(views, sel) && RowsOk(views, firsts) && |slot| == |sel| && SlotsOk(views, sel, firsts, slot)
    requires |resolved| == |firsts|
    requires forall i :: 0 <= i < |resolved| ==> IsResolved(vals, resolved[i], TupleAt(views, firsts[i]))
    requires forall i :: 0 <= i < |resolved| && resolved[i] == -1 ==> TupleAt(views, firsts[i]) !in before
    ensures |gids| == |sel| && AreGroups(views, sel, gids, vals) && IsGreatest(gmax, gids) && LeftOut(views, sel, gids, before)
    ensures forall k :: 0 <= k < |gids| ==> gids[k] in resolved
  {
    gids, gmax := [], -1;
    for k := 0 to |sel|
      invariant |gids| == k && AreGroups(views, sel, gids, vals) && IsGreatest(gmax, gids) && LeftOut(views, sel, gids, before)
      invariant forall j :: 0 <= j < k ==> gids[j] in resolved
    {
      var g := resolved[slot[k]];
      LocalKeyTells(views, firsts[slot[k]], sel[k]);
      assert IsResolved(vals, g, TupleAt(views, sel[k]));
      gids := gids + [g];
      gmax := if g > gmax then g else gmax;
    }
  }

  /** t is row i's values, each its column's dictionary entry, NULL without one. */
  ghost predicate IsTupleOf(views: seq<DimView>, i: nat, t: seq<DimVal>)
    requires RowOk(views, i)
  {
    |t| == |views| && forall j {:trigger t[j]} :: 0 <= j < |t| ==>
      t[j] == if views[j].idx.Some? && views[j].idx.value[i] >= 0 then DimVal.Text(views[j].dict[views[j].idx.value[i]]) else NullVal
  }

  lemma {:induction false} TupleIs(views: seq<DimView>, i: nat, t: seq<DimVal>)
    requires RowOk(views, i)
    ensures IsTupleOf(views, i, t) <==> t == TupleAt(views, i)
  {
  }

  /** ps are the numbers of tuples of the first columns, of none, one, and so on: each
      dictionary's entries and NULL. */
  ghost predicate AreTupleCounts(views: seq<DimView>, ps: seq<nat>) {
    |ps| == |views| + 1 && ps[0] == 1 && forall j {:trigger ps[j]} :: 0 < j < |ps| ==> ps[j] == ps[j - 1] * (|views[j - 1].dict| + 1)
  }

  lemma {:induction false} TupleCountsAre(views: seq<DimView>, ps: seq<nat>, n: nat)
    requires AreTupleCounts(views, ps) && n <= |views|
    ensures ps[n] == Product(Radixes(views), n)
  {
    if n > 0 {
      TupleCountsAre(views, ps, n - 1);
      ProductStep(Radixes(views), n - 1);
    }
  }

  lemma {:induction false} HasTupleCounts(views: seq<DimView>, n: nat) returns (ps: seq<nat>)
    requires n == |views|
    ensures AreTupleCounts(views, ps)
  {
    var rs := Radixes(views);
    ps := seq(n + 1, j requires 0 <= j <= n => Product(rs, j));
    forall j | 0 < j < |ps|
      ensures ps[j] == ps[j - 1] * (|views[j - 1].dict| + 1)
    {
      ProductStep(rs, j - 1);
    }
  }

  lemma {:induction false} GroupsMean(views: seq<DimView>, sel: seq<nat>, gids: seq<int>, vals: seq<seq<DimVal>>, before: seq<seq<DimVal>>)
    requires RowsOk(views, sel) && |gids| == |sel| && AreGroups(views, sel, gids, vals) && LeftOut(views, sel, gids, before)
    ensures forall k :: 0 <= k < |gids| && gids[k] != -1 ==> 0 <= gids[k] < |vals| && IsTupleOf(views, sel[k], vals[gids[k]])
    ensures forall k, g :: 0 <= k < |gids| && gids[k] == -1 && 0 <= g < |before| ==> !IsTupleOf(views, sel[k], before[g])
  {
    forall k, t | 0 <= k < |gids|
      ensures IsTupleOf(views, sel[k], t) <==> t == TupleAt(views, sel[k])
    {
      TupleIs(views, sel[k], t);
    }
  }

  /** groupsOf: each selected row's group id, -1 past the caps, and the largest. An
      id stands for the row's tuple, in this batch and every other. */
  method GroupsOf(table: GroupTable, views: seq<DimView>, sel: seq<nat>) returns (ok: bool, gids: seq<int>, gmax: int)
    requires table.Valid() && RowsOk(views, sel)
    modifies table
    ensures table.Valid() && old(table.vals) <= table.vals
    ensures exists ps :: AreTupleCounts(views, ps) && (ok <==> ps[|views|] <= 0xFFFF_FFFF_FFFF_FFFF)
    ensures !ok ==> table.vals == old(table.vals)
    ensures ok ==> |gids| == |sel| && AreGroups(views, sel, gids, table.vals) && IsGreatest(gmax, gids)
    ensures ok ==> forall k :: 0 <= k < |gids| && gids[k] != -1 ==> 0 <= gids[k] < |table.vals| && IsTupleOf(views, sel[k], table.vals[gids[k]])
    ensures ok ==> forall k, g :: 0 <= k < |gids| && gids[k] == -1 && 0 <= g < |old(table.vals)| ==>
              !IsTupleOf(views, sel[k], old(table.vals)[g])
    ensures ok && -1 in gids ==> table.dropped && table.Capped(old(table.looks))
    ensures ok ==> |table.vals| == |old(table.vals)| + |set n | old(table.looks) <= n < table.looks && !table.over(n)| <= table.max
  {
    ghost var ps := HasTupleCounts(views, |views|);
    TupleCountsAre(views, ps, |views|);
    gids, gmax := [], -1;
    var mult, radix;
    ok, mult, radix := Multipliers(views);
    if !ok { return; }
    var firsts, slot := Slots(views, mult, radix, sel);
    var keys, tuples := EncodeRows(views, firsts);
    var resolved := table.Resolve(keys, tuples);
    gids, gmax := Assign(views, sel, firsts, slot, resolved, table.vals, old(table.vals));
    GroupsMean(views, sel, gids, table.vals, old(table.vals));
  }

  /** Rows of any two batches have one group exactly when they have one tuple: the
      earlier batch's ids, given before the table grew, stand for the same tuples. */
  lemma {:induction false} OneTupleOneGroup(a: seq<DimView>, selA: seq<nat>, gidsA: seq<int>, before: seq<seq<DimVal>>, j: nat,
                                            b: seq<DimView>, selB: seq<nat>, gidsB: seq<int>, table: GroupTable, k: nat)
    requires table.Valid() && before <= table.vals
    requires RowsOk(a, selA) && AreGroups(a, selA, gidsA, before) && j < |gidsA| && gidsA[j] != -1
    requires RowsOk(b, selB) && AreGroups(b, selB, gidsB, table.vals) && k < |gidsB| && gidsB[k] != -1
    ensures gidsA[j] == gidsB[k] <==> exists t :: IsTupleOf(a, selA[j], t) && IsTupleOf(b, selB[k], t)
  {
    forall t
      ensures IsTupleOf(a, selA[j], t) <==> t == TupleAt(a, selA[j])
      ensures IsTupleOf(b, selB[k], t) <==> t == TupleAt(b, selB[k])
    {
      TupleIs(a, selA[j], t);
      TupleIs(b, selB[k], t);
    }
    assert before[gidsA[j]] == table.vals[gidsA[j]];
    table.SameGroup(gidsA[j], gidsB[k]);
    if gidsA[j] == gidsB[k] {
      assert IsTupleOf(a, selA[j], table.vals[gidsA[j]]) && IsTupleOf(b, selB[k], table.vals[gidsB[k]]);
    }
  }
}
