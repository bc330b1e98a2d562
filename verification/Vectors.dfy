/** One column chunk's rows, read page by page into a vector: dense, a value
    per row, or compact, the non-NULL values and their rows. */
module Vectors {
  import opened Rows

  datatype Value = Str(s: string) | Num(n: int)

  type CellValue = Option<Value>

  /** A page's values: through a dictionary (id tells two apart) or plain. */
  datatype Data =
    | TextDict(id: nat, dict: seq<string>, idx: seq<nat>)
    | Text(vals: seq<string>)
    | NumDict(ndict: seq<int>, nidx: seq<nat>)
    | Nums(nums: seq<int>)

  /** A page: which of its rows hold a value (all, without levels), and those values. */
  datatype Page = Page(rows: nat, def: Option<seq<bool>>, data: Data)

  predicate IsText(d: Data) { d.TextDict? || d.Text? }

  predicate DataOk(d: Data) {
    && (d.TextDict? ==> forall k :: 0 <= k < |d.idx| ==> d.idx[k] < |d.dict|)
    && (d.NumDict? ==> forall k :: 0 <= k < |d.nidx| ==> d.nidx[k] < |d.ndict|)
  }

  function Count(d: Data): nat {
    match d
    case TextDict(_, _, idx) => |idx|
    case Text(vals) => |vals|
    case NumDict(_, nidx) => |nidx|
    case Nums(nums) => |nums|
  }

  /** The page's k-th value. */
  function Nth(d: Data, k: nat): Value
    requires DataOk(d) && k < Count(d)
  {
    match d
    case TextDict(_, dict, idx) => Str(dict[idx[k]])
    case Text(vals) => Str(vals[k])
    case NumDict(ndict, nidx) => Num(ndict[nidx[k]])
    case Nums(nums) => Num(nums[k])
  }

  predicate Null(p: Page, r: nat)
    requires p.def.Some? ==> r < |p.def.value|
  {
    p.def.Some? && !p.def.value[r]
  }

  /** How many of the page's first r rows hold a value. */
  function Before(p: Page, r: nat): nat
    requires p.def.Some? ==> r <= |p.def.value|
  {
    if r == 0 then 0 else Before(p, r - 1) + if Null(p, r - 1) then 0 else 1
  }

  lemma {:induction false} BeforeMonotone(p: Page, r: nat, s: nat)
    requires r <= s && (p.def.Some? ==> s <= |p.def.value|)
    ensures Before(p, r) <= Before(p, s)
    decreases s
  {
    if r < s { BeforeMonotone(p, r, s - 1); }
  }

  predicate PageOk(p: Page, text: bool) {
    && DataOk(p.data) && IsText(p.data) == text
    && (p.def.Some? ==> |p.def.value| == p.rows)
    && Before(p, p.rows) == Count(p.data)
  }

  /** The cell of the page's row r. */
  function PageCell(p: Page, text: bool, r: nat): CellValue
    requires PageOk(p, text) && r < p.rows
  {
    if Null(p, r) then None
    else
      BeforeMonotone(p, r + 1, p.rows);
      Some(Nth(p.data, Before(p, r)))
  }

  function PageCells(p: Page, text: bool): (c: seq<CellValue>)
    requires PageOk(p, text)
    ensures |c| == p.rows
  {
    seq(p.rows, r requires 0 <= r < p.rows => PageCell(p, text, r))
  }

  predicate SameDictionary(a: Data, b: Data) {
    a.TextDict? && b.TextDict? && a.id == b.id ==> a.dict == b.dict
  }

  /** A chunk's pages; pages with the same dictionary share its entries. */
  predicate ChunkOk(chunk: seq<Page>, text: bool) {
    && (forall i :: 0 <= i < |chunk| ==> PageOk(chunk[i], text))
    && (forall i, j :: 0 <= i < |chunk| && 0 <= j < |chunk| ==> SameDictionary(chunk[i].data, chunk[j].data))
  }

  /** The chunk's cells, row by row, however it is cut into pages. */
  function ChunkCells(chunk: seq<Page>, text: bool): seq<CellValue>
    requires ChunkOk(chunk, text)
    decreases |chunk|
  {
    if chunk == [] then []
    else
      var n := |chunk| - 1;
      ChunkCells(chunk[..n], text) + PageCells(chunk[n], text)
  }

  /** c is the value of the page's row r: none where the levels say so, else the page's
      next after those of the rows before. */
  ghost predicate IsPageValue(p: Page, r: nat, c: CellValue)
    requires DataOk(p.data) && r < p.rows && (p.def.Some? ==> |p.def.value| == p.rows)
  {
    if p.def.Some? && !p.def.value[r] then c == None
    else
      var k := |set q | 0 <= q < r && (p.def.None? || p.def.value[q])|;
      match p.data
      case TextDict(_, dict, idx) => k < |idx| && c == Some(Str(dict[idx[k]]))
      case Text(vals) => k < |vals| && c == Some(Str(vals[k]))
      case NumDict(ndict, nidx) => k < |nidx| && c == Some(Num(ndict[nidx[k]]))
      case Nums(nums) => k < |nums| && c == Some(Num(nums[k]))
  }

  lemma {:induction false} BeforeIsCount(p: Page, r: nat)
    requires p.def.Some? ==> r <= |p.def.value|
    ensures Before(p, r) == |set q | 0 <= q < r && (p.def.None? || p.def.value[q])|
  {
    if r > 0 {
      BeforeIsCount(p, r - 1);
      var a := set q | 0 <= q < r - 1 && (p.def.None? || p.def.value[q]);
      assert (set q | 0 <= q < r && (p.def.None? || p.def.value[q])) == if Null(p, r - 1) then a else a + {r - 1};
    }
  }

  function RowsBefore(chunk: seq<Page>, i: nat): nat
    requires i <= |chunk|
  {
    if i == 0 then 0 else RowsBefore(chunk, i - 1) + chunk[i - 1].rows
  }

  lemma {:induction false} ChunkRows(chunk: seq<Page>, text: bool, i: nat)
    requires ChunkOk(chunk, text) && i <= |chunk|
    ensures |ChunkCells(chunk[..i], text)| == RowsBefore(chunk, i)
    ensures ChunkCells(chunk[..i], text) <= ChunkCells(chunk, text)
    decreases |chunk|, i
  {
    if i > 0 {
      assert chunk[..i][..i - 1] == chunk[..i - 1];
      ChunkRows(chunk, text, i - 1);
    }
    if i < |chunk| {
      ChunkRows(chunk[..|chunk| - 1], text, i);
      assert chunk[..|chunk| - 1][..i] == chunk[..i];
    } else {
      assert chunk[..i] == chunk;
    }
  }

  /** The chunk's cells are its pages' values, page after page. */
  lemma {:induction false} CellMeans(chunk: seq<Page>, text: bool, i: nat, r: nat)
    requires ChunkOk(chunk, text) && i < |chunk| && r < chunk[i].rows
    ensures |ChunkCells(chunk, text)| == RowsBefore(chunk, |chunk|) > RowsBefore(chunk, i) + r
    ensures IsPageValue(chunk[i], r, ChunkCells(chunk, text)[RowsBefore(chunk, i) + r])
  {
    assert chunk[..|chunk|] == chunk && chunk[..i + 1][..i] == chunk[..i];
    ChunkRows(chunk, text, |chunk|);
    ChunkRows(chunk, text, i);
    ChunkRows(chunk, text, i + 1);
    var p, cells := chunk[i], ChunkCells(chunk[..i], text);
    assert ChunkCells(chunk[..i + 1], text) == cells + PageCells(p, text);
    assert ChunkCells(chunk, text)[RowsBefore(chunk, i) + r] == PageCell(p, text, r);
    PageCellMeans(p, text, r);
  }

  lemma {:induction false} PageCellMeans(p: Page, text: bool, r: nat)
    requires PageOk(p, text) && r < p.rows
    ensures IsPageValue(p, r, PageCell(p, text, r))
  {
    BeforeIsCount(p, r);
    BeforeMonotone(p, r + 1, p.rows);
  }

  /** Rows from on of one chunk: text an index per value into dict (-1 NULL),
      numbers a number per value, NULL where nulls says. pos, when not None, is
      the rows of the values held, counted from from. */
  datatype Vector = Vector(text: bool, from: nat, dict: seq<string>, idx: seq<int>, nums: seq<int>,
                           nulls: Option<seq<bool>>, pos: Option<seq<nat>>)

  predicate IdxOk(v: Vector) {
    forall k :: 0 <= k < |v.idx| ==> -1 <= v.idx[k] < |v.dict|
  }

  predicate HasRow(v: Vector, i: nat) {
    IdxOk(v) && (v.text ==> i < |v.idx|) && (!v.text ==> i < |v.nums| && (v.nulls.Some? ==> i < |v.nulls.value|))
  }

  /** A dense vector's value of its i-th row, row from + i of the group. */
  function At(v: Vector, i: nat): CellValue
    requires HasRow(v, i)
  {
    if v.text then
      if v.idx[i] < 0 then None else Some(Str(v.dict[v.idx[i]]))
    else if v.nulls.Some? && v.nulls.value[i] then None
    else Some(Num(v.nums[i]))
  }

  /** The k-th value held by a compact vector. */
  function ValueAt(v: Vector, k: nat): Value
    requires IdxOk(v)
    requires v.text ==> k < |v.idx| && v.idx[k] >= 0
    requires !v.text ==> k < |v.nums|
  {
    if v.text then Str(v.dict[v.idx[k]]) else Num(v.nums[k])
  }

  ghost predicate Dense(v: Vector, cells: seq<CellValue>) {
    && v.pos.None? && IdxOk(v)
    && (v.text ==> |v.idx| == |cells|)
    && (!v.text ==> |v.nums| == |cells| && (v.nulls.Some? ==> |v.nulls.value| == |cells|))
    && forall r :: 0 <= r < |cells| ==> At(v, r) == cells[r]
  }

  ghost predicate Compact(v: Vector, cells: seq<CellValue>) {
    && v.pos.Some? && IdxOk(v)
    && var pos := v.pos.value;
    && (v.text ==> |v.idx| == |pos| && forall k :: 0 <= k < |v.idx| ==> v.idx[k] >= 0)
    && (!v.text ==> |v.nums| == |pos|)
    && (forall k :: 0 <= k < |pos| ==> pos[k] < |cells| && cells[pos[k]] == Some(ValueAt(v, k)))
    && (forall k, m :: 0 <= k < m < |pos| ==> pos[k] < pos[m])
    && (forall r :: 0 <= r < |cells| && cells[r].Some? ==> r in pos)
  }

  ghost predicate Reads(v: Vector, compact: bool, cells: seq<CellValue>) {
    if compact then Compact(v, cells) else Dense(v, cells)
  }

  /** What readVector keeps of the chunk's last dictionary: its entries' places
      in the vector's, -1 until used. */
  datatype Remap = Remap(id: Option<nat>, at: seq<int>)

  ghost predicate RemapOk(v: Vector, m: Remap, dict: seq<string>) {
    |m.at| == |dict| && forall j :: 0 <= j < |dict| ==> -1 <= m.at[j] < |v.dict| && (m.at[j] >= 0 ==> v.dict[m.at[j]] == dict[j])
  }

  /** v is v0 with one value, x, appended, nothing else changed but the dictionary. */
  ghost predicate Appended(v0: Vector, v: Vector, x: Value) {
    && v.text == v0.text && v.nulls == v0.nulls && v.pos == v0.pos
    && IdxOk(v0) && IdxOk(v) && v0.dict <= v.dict
    && (v.text ==> v.nums == v0.nums && |v.idx| == |v0.idx| + 1 && v0.idx <= v.idx)
    && (v.text ==> v.idx[|v0.idx|] >= 0 && Str(v.dict[v.idx[|v0.idx|]]) == x)
    && (!v.text ==> v.idx == v0.idx && |v.nums| == |v0.nums| + 1 && v0.nums <= v.nums && Num(v.nums[|v0.nums|]) == x)
  }

  /** v and its remap m are v0 and m0 with values of d appended. */
  ghost predicate Continues(v0: Vector, m0: Remap, v: Vector, m: Remap, d: Data) {
    && v.text == v0.text && v.from == v0.from && v0.dict <= v.dict
    && m.id == m0.id
    && (d.TextDict? ==> RemapOk(v, m, d.dict))
    && (!d.TextDict? ==> m == m0)
  }

  /** The vector with the page's k-th value appended to what it holds. */
  method Get(v0: Vector, m0: Remap, d: Data, k: nat) returns (v: Vector, m: Remap)
    requires DataOk(d) && k < Count(d) && IsText(d) == v0.text && IdxOk(v0)
    requires d.TextDict? ==> RemapOk(v0, m0, d.dict)
    ensures Continues(v0, m0, v, m, d) && Appended(v0, v, Nth(d, k))
  {
    v, m := v0, m0;
    match d
    case TextDict(_, dict, idx) =>
      var j := idx[k];
      if m.at[j] < 0 {
        m := m.(at := m.at[j := |v.dict|]);
        v := v.(dict := v.dict + [dict[j]]);
      }
      v := v.(idx := v.idx + [m.at[j]]);
    case Text(vals) =>
      v := v.(idx := v.idx + [|v.dict|], dict := v.dict + [vals[k]]);
    case NumDict(ndict, nidx) =>
      v := v.(nums := v.nums + [ndict[nidx[k]]]);
    case Nums(nums) =>
      v := v.(nums := v.nums + [nums[k]]);
  }

  /** A dense vector of row rows with a NULL appended. */
  function AddNull(v: Vector, row: nat): Vector {
    if v.text then v.(idx := v.idx + [-1])
    else
      var was := if v.nulls.None? then seq(row, _ => false) else v.nulls.value;
      v.(nulls := Some(was + [true]), nums := v.nums + [0])
  }

  lemma {:induction false} AddNullReads(v: Vector, cells: seq<CellValue>)
    requires Dense(v, cells)
    ensures Dense(AddNull(v, |cells|), cells + [None])
  {
    var w := AddNull(v, |cells|);
    assert forall r :: 0 <= r < |cells| ==> At(w, r) == At(v, r);
    assert At(w, |cells|) == None;
  }

  lemma {:induction false} AppendedCompact(v0: Vector, v: Vector, x: Value, cells: seq<CellValue>)
    requires Compact(v0, cells) && Appended(v0.(pos := Some(v0.pos.value + [|cells|])), v, x)
    ensures Compact(v, cells + [Some(x)])
  {
    var now, p0, p := cells + [Some(x)], v0.pos.value, v.pos.value;
    assert forall i :: 0 <= i < |p0| ==> ValueAt(v, i) == ValueAt(v0, i);
    assert ValueAt(v, |p0|) == x;
    assert p[|p0|] == |cells|;
    forall r | 0 <= r < |now| && now[r].Some?
      ensures r in p
    {
      if r < |cells| {
        assert cells[r].Some? && r in p0;
      }
    }
  }

  lemma {:induction false} AppendedDense(v0: Vector, v: Vector, x: Value, cells: seq<CellValue>)
    requires Dense(v0, cells)
    requires Appended(if v0.nulls.Some? then v0.(nulls := Some(v0.nulls.value + [false])) else v0, v, x)
    requires v.text ==> v.nulls == v0.nulls || v.nulls.Some?
    ensures Dense(v, cells + [Some(x)])
  {
    assert forall r :: 0 <= r < |cells| ==> At(v, r) == At(v0, r);
    assert At(v, |cells|) == Some(x);
  }

  /** The vector with the value of a row appended, its row noted first when compact. */
  method AddValue(v0: Vector, m0: Remap, d: Data, k: nat, row: nat, compact: bool, ghost cells: seq<CellValue>)
    returns (v: Vector, m: Remap)
    requires DataOk(d) && k < Count(d) && IsText(d) == v0.text && Reads(v0, compact, cells) && row == |cells|
    requires d.TextDict? ==> RemapOk(v0, m0, d.dict)
    ensures Continues(v0, m0, v, m, d)
    ensures Reads(v, compact, cells + [Some(Nth(d, k))])
  {
    v := v0;
    if compact {
      v := v.(pos := Some(v.pos.value + [row]));
    } else if v.nulls.Some? {
      v := v.(nulls := Some(v.nulls.value + [false]));
    }
    v, m := Get(v, m0, d, k);
    if compact {
      AppendedCompact(v0, v, Nth(d, k), cells);
    } else {
      AppendedDense(v0, v, Nth(d, k), cells);
    }
  }

  /** Appends the page's row r, its k-th value unless it is NULL. */
  method ReadRow(p: Page, v0: Vector, m0: Remap, r: nat, k: nat, row: nat, compact: bool, ghost cells: seq<CellValue>)
    returns (v: Vector, m: Remap)
    requires PageOk(p, v0.text) && r < p.rows && k == Before(p, r)
    requires Reads(v0, compact, cells) && row == |cells|
    requires p.data.TextDict? ==> RemapOk(v0, m0, p.data.dict)
    ensures Continues(v0, m0, v, m, p.data)
    ensures Reads(v, compact, cells + [PageCell(p, v.text, r)])
  {
    v, m := v0, m0;
    if Null(p, r) {
      if !compact {
        AddNullReads(v, cells);
        v := AddNull(v, row);
      }
    } else {
      BeforeMonotone(p, r + 1, p.rows);
      v, m := AddValue(v, m, p.data, k, row, compact, cells);
    }
  }

  /** cells[from..to], of the first n cells. */
  function Window(cells: seq<CellValue>, from: nat, to: nat): seq<CellValue> {
    var hi := if to < |cells| then to else |cells|;
    if from >= hi then [] else cells[from..hi]
  }

  /** How far ReadPage has come: the page's first r rows. */
  ghost predicate ReadTo(p: Page, v0: Vector, m0: Remap, v: Vector, m: Remap, r: nat, from: nat, to: nat, compact: bool, cells: seq<CellValue>)
  {
    && PageOk(p, v0.text) && r <= p.rows && from <= to
    && Continues(v0, m0, v, m, p.data)
    && (p.data.TextDict? ==> RemapOk(v, m, p.data.dict))
    && Reads(v, compact, Window(cells + PageCells(p, v0.text)[..r], from, to))
  }

  /** Row r of the page read, or passed over. */
  method ReadNext(p: Page, ghost v0: Vector, ghost m0: Remap, v: Vector, m: Remap, r: nat, k: nat, row: nat, from: nat, to: nat,
                  compact: bool, ghost cells: seq<CellValue>) returns (w: Vector, n: Remap)
    requires ReadTo(p, v0, m0, v, m, r, from, to, compact, cells) && r < p.rows && row == |cells| + r && k == Before(p, r)
    ensures ReadTo(p, v0, m0, w, n, r + 1, from, to, compact, cells)
  {
    w, n := v, m;
    ghost var page := PageCells(p, v0.text);
    NextCell(cells, page, r, from, to);
    if from <= row < to {
      w, n := ReadRow(p, v, m, r, k, row - from, compact, Window(cells + page[..r], from, to));
    }
  }

  /** Appends the rows of page p, which start at row row0 of the chunk, that
      are in from..to. */
  method ReadPage(p: Page, v0: Vector, m0: Remap, row0: nat, from: nat, to: nat, compact: bool, ghost cells: seq<CellValue>)
    returns (v: Vector, m: Remap)
    requires from <= to && PageOk(p, v0.text) && row0 == |cells|
    requires Reads(v0, compact, Window(cells, from, to))
    requires p.data.TextDict? ==> RemapOk(v0, m0, p.data.dict)
    ensures Continues(v0, m0, v, m, p.data)
    ensures Reads(v, compact, Window(cells + PageCells(p, v.text), from, to))
  {
    v, m := v0, m0;
    var k, row := 0, row0;
    assert cells + PageCells(p, v0.text)[..0] == cells;
    for r := 0 to p.rows
      invariant row == row0 + r && k == Before(p, r)
      invariant ReadTo(p, v0, m0, v, m, r, from, to, compact, cells)
    {
      v, m := ReadNext(p, v0, m0, v, m, r, k, row, from, to, compact, cells);
      BeforeMonotone(p, r + 1, p.rows);
      if !Null(p, r) {
        k := k + 1;
      }
      row := row + 1;
    }
    assert PageCells(p, v0.text)[..p.rows] == PageCells(p, v0.text);
  }

  lemma {:induction false} NextCell(cells: seq<CellValue>, page: seq<CellValue>, r: nat, from: nat, to: nat)
    requires r < |page| && from <= to
    ensures var row := |cells| + r;
            Window(cells + page[..r + 1], from, to) ==
            Window(cells + page[..r], from, to) + if from <= row < to then [page[r]] else []
    ensures from <= |cells| + r < to ==> |Window(cells + page[..r], from, to)| == |cells| + r - from
  {
    assert cells + page[..r + 1] == (cells + page[..r]) + [page[r]];
  }

  /** Rows from to to of a chunk of n rows; a chunk of another number of rows fails. */
  method ReadVector(chunk: seq<Page>, text: bool, n: nat, from: nat, to: nat, compact: bool) returns (r: Option<Vector>)
    requires ChunkOk(chunk, text) && from <= to
    ensures r.Some? <==> |ChunkCells(chunk, text)| == n
    ensures r.Some? ==> r.value.from == from && Reads(r.value, compact, Window(ChunkCells(chunk, text), from, to))
  {
    var v := Vector(text, from, [], [], [], None, if compact then Some([]) else None);
    var m := Remap(None, []);
    ghost var dict: seq<string> := [];
    var row := 0;
    for i := 0 to |chunk|
      invariant v.text == text && v.from == from
      invariant row == |ChunkCells(chunk[..i], text)|
      invariant Reads(v, compact, Window(ChunkCells(chunk[..i], text), from, to))
      invariant m.id.Some? ==> RemapOk(v, m, dict)
      invariant m.id.Some? ==> forall j :: 0 <= j < |chunk| && chunk[j].data.TextDict? && chunk[j].data.id == m.id.value ==> chunk[j].data.dict == dict
    {
      var p := chunk[i];
      ghost var cells := ChunkCells(chunk[..i], text);
      assert chunk[..i + 1][..i] == chunk[..i];
      assert ChunkCells(chunk[..i + 1], text) == cells + PageCells(p, text);
      if row + p.rows <= from || row >= to {
        Skipped(cells, PageCells(p, text), from, to);
        row := row + p.rows;
        continue;
      }
      if p.data.TextDict? {
        if m.id != Some(p.data.id) {
          m := Remap(Some(p.data.id), seq(|p.data.dict|, _ => -1));
          dict := p.data.dict;
        }
        v, m := ReadPage(p, v, m, row, from, to, compact, cells);
      } else {
        ghost var was := v;
        v, m := ReadPage(p, v, m, row, from, to, compact, cells);
        assert m.id.Some? ==> RemapOk(was, m, dict);
      }
      row := row + p.rows;
    }
    assert chunk[..|chunk|] == chunk;
    if row != n {
      return None;
    }
    return Some(v);
  }

  lemma {:induction false} Skipped(cells: seq<CellValue>, page: seq<CellValue>, from: nat, to: nat)
    requires from <= to && (|cells| + |page| <= from || |cells| >= to)
    ensures Window(cells + page, from, to) == Window(cells, from, to)
  {
  }
}
