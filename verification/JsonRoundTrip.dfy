/** What FromByte writes, the OID cursor reads back. */
module JsonRoundTrip {
  import opened JsonValue
  import opened JsonWriter
  import opened JsonCursor

  // ---- Slots -------------------------------------------------------------------------------------------

  function SlotOf(e: Entry, k: nat): Path {
    Slot(Tags(e), e.isArray, k)
  }

  /** No two entries want the same place, and none wants an object where another wants an array or
      a value. Columns of one array may share it under different names. */
  ghost predicate NonConflicting(schema: seq<Entry>) {
    forall a, b :: 0 <= a < |schema| && 0 <= b < |schema| && a != b ==>
      Diverge(SlotOf(schema[a], 0), SlotOf(schema[b], 0))
  }

  function ReIndex(p: Path, k: nat): Path {
    if p == [] then [] else [if p[0].At? then At(k) else p[0]] + ReIndex(p[1..], k)
  }

  ghost predicate IndexedZero(p: Path) {
    forall i :: 0 <= i < |p| && p[i].At? ==> p[i] == At(0)
  }

  lemma {:induction false} ReIndexAppend(p: Path, q: Path, k: nat)
    ensures ReIndex(p + q, k) == ReIndex(p, k) + ReIndex(q, k)
  {
    if p == [] {
      assert p + q == q;
    } else {
      assert (p + q)[1..] == p[1..] + q;
      ReIndexAppend(p[1..], q, k);
    }
  }

  lemma {:induction false} ReIndexKeys(tags: seq<string>, k: nat)
    ensures ReIndex(Keys(tags), k) == Keys(tags)
  {
    if tags != [] {
      ReIndexKeys(tags[1..], k);
    }
  }

  lemma SlotIsReIndexed(e: Entry, k: nat)
    ensures SlotOf(e, k) == ReIndex(SlotOf(e, 0), k)
  {
    var tags, n := Tags(e), |Tags(e)| - 1;
    if e.isArray {
      var tail: Path := if tags[n] == "" then [] else [Key(tags[n])];
      ReIndexAppend(Keys(tags[..n]) + [At(0)], tail, k);
      ReIndexAppend(Keys(tags[..n]), [At(0)], k);
      ReIndexKeys(tags[..n], k);
      assert ReIndex([At(0)], k) == [At(k)];
      assert ReIndex(tail, k) == tail;
    } else {
      ReIndexKeys(tags, k);
    }
  }

  lemma {:induction false} ReIndexDiverges(p: Path, q: Path, m: nat, k: nat)
    requires Diverge(p, q) && IndexedZero(p) && IndexedZero(q)
    ensures Diverge(ReIndex(p, m), ReIndex(q, k))
  {
    if p[0] == q[0] && (p[0].Key? || m == k) {
      ReIndexDiverges(p[1..], q[1..], m, k);
      assert ReIndex(p, m)[1..] == ReIndex(p[1..], m) && ReIndex(q, k)[1..] == ReIndex(q[1..], k);
    }
  }

  lemma {:induction false} IndicesDiverge(p: Path, m: nat, k: nat, tail: Path)
    requires m != k
    ensures Diverge(p + [At(m)] + tail, p + [At(k)] + tail)
  {
    if p != [] {
      IndicesDiverge(p[1..], m, k, tail);
      assert (p + [At(m)] + tail)[1..] == p[1..] + [At(m)] + tail;
      assert (p + [At(k)] + tail)[1..] == p[1..] + [At(k)] + tail;
    }
  }

  lemma SlotIsIndexedZero(e: Entry)
    ensures IndexedZero(SlotOf(e, 0))
  {
  }

  lemma EntriesDiverge(e: Entry, m: nat, f: Entry, k: nat)
    requires Diverge(SlotOf(e, 0), SlotOf(f, 0))
    ensures Diverge(SlotOf(e, m), SlotOf(f, k))
  {
    SlotIsReIndexed(e, m);
    SlotIsReIndexed(f, k);
    SlotIsIndexedZero(e);
    SlotIsIndexedZero(f);
    ReIndexDiverges(SlotOf(e, 0), SlotOf(f, 0), m, k);
  }

  lemma ElementsDiverge(e: Entry, m: nat, k: nat)
    requires e.isArray && m != k
    ensures Diverge(SlotOf(e, m), SlotOf(e, k))
  {
    var tags, n := Tags(e), |Tags(e)| - 1;
    IndicesDiverge(Keys(tags[..n]), m, k, if tags[n] == "" then [] else [Key(tags[n])]);
  }

  // ---- The tree after any number of writes ---------------------------------------------------------------

  /** The value number `m` of entry `a`, when the entries before `i` and the first `k` values of
      entry `i` have been written. */
  function Expected(schema: seq<Entry>, i: nat, k: nat, a: nat, m: nat): Json
    requires a < |schema|
  {
    if (a < i || (a == i && m < k)) && m < |Written(schema[a])| then Str(Written(schema[a])[m]) else Null
  }

  ghost predicate SlotHolds(root: Json, schema: seq<Entry>, i: nat, k: nat, a: nat, m: nat)
    requires a < |schema|
  {
    Fits(root, SlotOf(schema[a], m)) && Get(root, SlotOf(schema[a], m)) == Expected(schema, i, k, a, m)
  }

  ghost predicate Holds(root: Json, schema: seq<Entry>, i: nat, k: nat) {
    forall a: nat, m: nat :: a < |schema| && (schema[a].isArray || m == 0) ==> SlotHolds(root, schema, i, k, a, m)
  }

  lemma {:induction false} FitsNull(p: Path)
    ensures Fits(Null, p) && Get(Null, p) == Null
  {
    if p != [] {
      FitsNull(p[1..]);
    }
  }

  lemma EmptyHolds(schema: seq<Entry>)
    ensures Holds(Obj(map[]), schema, 0, 0)
  {
    forall a: nat, m: nat | a < |schema| && (schema[a].isArray || m == 0)
      ensures SlotHolds(Obj(map[]), schema, 0, 0, a, m)
    {
      FitsNull(SlotOf(schema[a], m)[1..]);
    }
  }

  lemma WriteOneHolds(root: Json, schema: seq<Entry>, i: nat, k: nat)
    requires NonConflicting(schema) && i < |schema| && Holds(root, schema, i, k)
    requires k < |Written(schema[i])|
    ensures var r := Put(root, SlotOf(schema[i], k), Str(Written(schema[i])[k]));
      r.Ok? && Holds(r.value, schema, i, k + 1)
  {
    var p, v := SlotOf(schema[i], k), Str(Written(schema[i])[k]);
    assert SlotHolds(root, schema, i, k, i, k);
    PutGet(root, p, v);
    var r, next := Put(root, p, v).value, k + 1;
    forall a: nat, m: nat | a < |schema| && (schema[a].isArray || m == 0)
      ensures SlotHolds(r, schema, i, next, a, m)
    {
      assert SlotHolds(root, schema, i, k, a, m);
      if a != i || m != k {
        if a != i {
          EntriesDiverge(schema[i], k, schema[a], m);
        } else {
          ElementsDiverge(schema[i], k, m);
        }
        PutElsewhere(root, p, v, SlotOf(schema[a], m));
      }
    }
  }

  lemma {:induction false} WriteValuesHolds(root: Json, schema: seq<Entry>, i: nat, k: nat)
    requires NonConflicting(schema) && i < |schema| && Holds(root, schema, i, k)
    ensures WriteValues(root, schema[i], k).Ok?
    ensures Holds(WriteValues(root, schema[i], k).value, schema, i + 1, 0)
    decreases |Written(schema[i])| - k
  {
    if k < |Written(schema[i])| {
      WriteOneHolds(root, schema, i, k);
      WriteValuesHolds(Put(root, SlotOf(schema[i], k), Str(Written(schema[i])[k])).value, schema, i, k + 1);
    } else {
      var next := i + 1;
      forall a: nat, m: nat | a < |schema| && (schema[a].isArray || m == 0)
        ensures SlotHolds(root, schema, next, 0, a, m)
      {
        assert SlotHolds(root, schema, i, k, a, m);
      }
    }
  }

  lemma {:induction false} WriteSchemaHolds(root: Json, schema: seq<Entry>, i: nat)
    requires NonConflicting(schema) && i <= |schema| && Holds(root, schema, i, 0)
    ensures WriteSchema(root, schema[i..]).Ok?
    ensures Holds(WriteSchema(root, schema[i..]).value, schema, |schema|, 0)
    decreases |schema| - i
  {
    if i < |schema| {
      WriteValuesHolds(root, schema, i, 0);
      assert schema[i..][0] == schema[i] && schema[i..][1..] == schema[i + 1..];
      WriteSchemaHolds(WriteValues(root, schema[i], 0).value, schema, i + 1);
    }
  }

  /** A schema without conflicts is written without an exception, and every place then holds its
      value, or nothing past the last value of an array. */
  lemma TreeOfSchema(schema: seq<Entry>)
    requires NonConflicting(schema)
    ensures WriteSchema(Obj(map[]), schema).Ok?
    ensures Holds(WriteSchema(Obj(map[]), schema).value, schema, |schema|, 0)
  {
    EmptyHolds(schema);
    assert schema[0..] == schema;
    WriteSchemaHolds(Obj(map[]), schema, 0);
  }

  // ---- Reading one column ----------------------------------------------------------------------------------

  lemma {:induction false} CellGet(j: Json, elem: string, k: nat)
    ensures Get(j, Cell(elem, k)) == if elem == "" then Child(j, At(k)) else Child(Child(j, At(k)), Key(elem))
    ensures Fits(j, Cell(elem, k)) <==> Indexable(j, At(k)) && (elem == "" || Indexable(Child(j, At(k)), Key(elem)))
  {
    if elem != "" {
      var c, tail := Child(j, At(k)), [Key(elem)];
      assert Cell(elem, k)[1..] == tail && tail[1..] == [];
      assert Get(c, tail) == Get(Child(c, Key(elem)), []);
      assert Fits(c, tail) <==> Indexable(c, Key(elem)) && Fits(Child(c, Key(elem)), []);
    } else {
      assert Cell(elem, k)[1..] == [];
    }
  }

  lemma CellsDiverge(elem: string, k: nat, m: nat)
    requires k != m
    ensures Diverge(Cell(elem, k), Cell(elem, m))
  {
  }

  /** The cells of an array can all be read, and hold what those of `a` hold. */
  ghost predicate SameCells(list: Json, a: Json, elem: string) {
    && list.Arr?
    && forall m: nat :: Fits(list, Cell(elem, m)) && Get(list, Cell(elem, m)) == Get(a, Cell(elem, m))
  }

  lemma TouchKeepsCells(list: Json, a: Json, elem: string, k: nat)
    requires SameCells(list, a, elem)
    ensures Touch(list, Cell(elem, k)).Ok?
    ensures SameCells(Touch(list, Cell(elem, k)).value, a, elem)
  {
    PutGet(list, Cell(elem, k), Get(list, Cell(elem, k)));
    var t := Touch(list, Cell(elem, k)).value;
    forall m: nat
      ensures Fits(t, Cell(elem, m)) && Get(t, Cell(elem, m)) == Get(a, Cell(elem, m))
    {
      if m != k {
        CellsDiverge(elem, k, m);
        PutElsewhere(list, Cell(elem, k), Get(list, Cell(elem, k)), Cell(elem, m));
      }
    }
  }

  /** The cursor stands in front of cell number `k` of the array `a`. */
  ghost predicate InFront(c: Cursor, a: Json, elem: string, k: nat) {
    && a.Arr? && SameCells(c.list, a, elem) && c.elem == elem && !c.value.Null?
    && c.crt.Some? && c.crt.value < |c.tags|
    && c.tags[c.crt.value].index == k && c.tags[c.crt.value].size >= |a.items|
  }

  ghost predicate Exhausted(c: Cursor) {
    Next(c) == (Nothing, c)
  }

  /** A value that a call can return. */
  predicate IsLeaf(v: Json) {
    v.Str? || v.Scalar?
  }

  lemma NextReadsCell(c: Cursor, a: Json, elem: string, k: nat)
    requires InFront(c, a, elem, k)
    requires var v := Get(a, Cell(elem, k)); v.Null? || IsLeaf(v)
    ensures var v := Get(a, Cell(elem, k));
      && (IsLeaf(v) ==> Next(c).0 == Text(v.text) && InFront(Next(c).1, a, elem, k + 1))
      && (v.Null? ==> Next(c).0 == Nothing && Exhausted(Next(c).1))
  {
    CellGet(a, elem, k);
    TouchKeepsCells(c.list, a, elem, k);
  }

  // ---- Finding the first value -------------------------------------------------------------------------------

  /** How a walk along the tags of an entry may end: without a value when the entry's first slot is
      empty, and otherwise with that value, in front of the first cell when the entry is an array. */
  ghost predicate Found(w: Result<(Cursor, bool)>, v: Json, isArray: bool, a: Json, elem: string) {
    && w.Ok?
    && var (c, ended) := w.value;
       if v.Null? then c.value.Null?
       else ended && c.value == v && if isArray then InFront(c, a, elem, 0) else c.list.Null? && c.crt.None?
  }

  /** The walk stands in front of the array `a`, whose column or elements the last tag names. */
  ghost predicate AtArray(c: Cursor, tags: seq<string>, a: Json) {
    && |tags| >= 2 && |c.tags| == |tags| - 2 && a.Arr?
    && Indexable(c.value, Key(tags[|tags| - 2])) && Child(c.value, Key(tags[|tags| - 2])) == a
    && SameCells(a, a, tags[|tags| - 1])
  }

  lemma EnterElements(c: Cursor, tags: seq<string>, a: Json, arrays: nat)
    requires arrays <= 2 && AtArray(c, tags, a) && tags[|tags| - 1] == ""
    ensures Found(Walk(c, tags, |tags| - 2, arrays), Get(a, Cell("", 0)), true, a, "")
  {
    TouchKeepsCells(a, a, "", 0);
  }

  lemma EnterColumn(c: Cursor, tags: seq<string>, a: Json, arrays: nat)
    requires arrays <= 2 && AtArray(c, tags, a) && tags[|tags| - 1] != "" && IsLeaf(Get(a, Cell(tags[|tags| - 1], 0)))
    ensures Found(Walk(c, tags, |tags| - 2, arrays), Get(a, Cell(tags[|tags| - 1], 0)), true, a, tags[|tags| - 1])
  {
    var elem := tags[|tags| - 1];
    TouchKeepsCells(a, a, elem, 0);
    TouchGrows(a, Cell(elem, 0));
    TouchKeepsCells(Touch(a, Cell(elem, 0)).value, a, elem, 0);
  }

  lemma EnterMissingColumn(c: Cursor, tags: seq<string>, a: Json, arrays: nat)
    requires arrays <= 2 && AtArray(c, tags, a) && tags[|tags| - 1] != "" && Get(a, Cell(tags[|tags| - 1], 0)).Null?
    ensures Found(Walk(c, tags, |tags| - 2, arrays), Null, true, a, tags[|tags| - 1])
  {
    var elem := tags[|tags| - 1];
    TouchKeepsCells(a, a, elem, 0);
    var t := Touch(a, Cell(elem, 0)).value;
    TouchGrows(a, Cell(elem, 0));
    CellGet(t, elem, 0);
    CellGet(t, "", 0);
    PutGet(t, Cell("", 0), Get(t, Cell("", 0)));
  }

  lemma EnterFinds(c: Cursor, tags: seq<string>, a: Json, arrays: nat)
    requires arrays <= 2 && AtArray(c, tags, a)
    requires var v := Get(a, Cell(tags[|tags| - 1], 0)); v.Null? || IsLeaf(v)
    ensures Found(Walk(c, tags, |tags| - 2, arrays), Get(a, Cell(tags[|tags| - 1], 0)), true, a, tags[|tags| - 1])
  {
    if tags[|tags| - 1] == "" {
      EnterElements(c, tags, a, arrays);
    } else if IsLeaf(Get(a, Cell(tags[|tags| - 1], 0))) {
      EnterColumn(c, tags, a, arrays);
    } else {
      EnterMissingColumn(c, tags, a, arrays);
    }
  }

  lemma TouchGrows(a: Json, p: Path)
    requires a.Arr? && p != [] && p[0].At? && Touch(a, p).Ok?
    ensures Touch(a, p).value.Arr? && |Touch(a, p).value.items| >= |a.items|
  {
  }

  lemma KeysStep(tags: seq<string>, i: nat, n: nat)
    requires i < n <= |tags|
    ensures Keys(tags[i..n]) == [Key(tags[i])] + Keys(tags[i + 1..n])
  {
    assert tags[i..n] == [tags[i]] + tags[i + 1..n];
  }

  /** The slot of an array element, seen from the value reached after `i` tags. */
  function Ahead(tags: seq<string>, i: nat, m: nat): Path
    requires i < |tags|
  {
    Keys(tags[i..|tags| - 1]) + Cell(tags[|tags| - 1], m)
  }

  lemma AheadStep(j: Json, tags: seq<string>, i: nat, m: nat)
    requires i < |tags| - 1
    ensures var u := Child(j, Key(tags[i]));
      && Get(j, Ahead(tags, i, m)) == Get(u, Ahead(tags, i + 1, m))
      && (Fits(j, Ahead(tags, i, m)) <==> Indexable(j, Key(tags[i])) && Fits(u, Ahead(tags, i + 1, m)))
      && Get(j, Keys(tags[i..|tags| - 1])) == Get(u, Keys(tags[i + 1..|tags| - 1]))
  {
    KeysStep(tags, i, |tags| - 1);
    assert Ahead(tags, i, m)[1..] == Ahead(tags, i + 1, m);
    assert Keys(tags[i..|tags| - 1])[1..] == Keys(tags[i + 1..|tags| - 1]);
  }

  lemma AheadLast(tags: seq<string>, m: nat)
    requires |tags| >= 1
    ensures Ahead(tags, |tags| - 1, m) == Cell(tags[|tags| - 1], m)
    ensures Keys(tags[|tags| - 1..|tags| - 1]) == []
  {
  }

  lemma {:induction false} WalkFindsArray(c: Cursor, tags: seq<string>, i: nat, arrays: nat)
    requires arrays <= 2 && i < |tags| - 1 && |c.tags| == i
    requires forall m: nat :: Fits(c.value, Ahead(tags, i, m))
    requires var v := Get(c.value, Ahead(tags, i, 0)); v.Null? || IsLeaf(v)
    ensures Found(Walk(c, tags, i, arrays), Get(c.value, Ahead(tags, i, 0)), true,
      Get(c.value, Keys(tags[i..|tags| - 1])), tags[|tags| - 1])
    decreases |tags| - i
  {
    var n := |tags| - 1;
    var u, next := Child(c.value, Key(tags[i])), i + 1;
    forall m: nat
      ensures Indexable(c.value, Key(tags[i])) && Fits(u, Ahead(tags, next, m))
    {
      assert Fits(c.value, Ahead(tags, i, m));
      AheadStep(c.value, tags, i, m);
    }
    AheadStep(c.value, tags, i, 0);
    assert Fits(u, Ahead(tags, i + 1, 0));
    if u.Null? {
      GetOfNull(Ahead(tags, i + 1, 0));
    } else if i + 1 == n {
      forall m: nat ensures Fits(u, Cell(tags[n], m)) {
        AheadLast(tags, m);
        assert Fits(u, Ahead(tags, i + 1, m));
      }
      AheadLast(tags, 0);
      EnterFinds(c, tags, u, arrays);
    } else {
      KeysStep(tags, i + 1, n);
      WalkFindsArray(c.(value := u, tags := c.tags + [Tag(tags[i], "", 0, 0)]), tags, i + 1, arrays);
    }
  }

  lemma {:induction false} WalkFindsPlain(c: Cursor, tags: seq<string>, i: nat)
    requires i < |tags| && c.list.Null? && c.crt.None?
    requires Fits(c.value, Keys(tags[i..]))
    requires var v := Get(c.value, Keys(tags[i..])); v.Null? || IsLeaf(v)
    ensures Found(Walk(c, tags, i, 0), Get(c.value, Keys(tags[i..])), false, Null, "")
    decreases |tags| - i
  {
    var u := Child(c.value, Key(tags[i]));
    KeysStep(tags, i, |tags|);
    assert tags[i..] == tags[i..|tags|] && tags[i + 1..] == tags[i + 1..|tags|];
    assert Keys(tags[i..])[1..] == Keys(tags[i + 1..]);
    if u.Null? {
      GetOfNull(Keys(tags[i + 1..]));
    } else if i + 1 < |tags| {
      KeysStep(tags, i + 1, |tags|);
      WalkFindsPlain(c.(value := u, tags := c.tags + [Tag(tags[i], "", 0, 0)]), tags, i + 1);
    }
  }

  // ---- The round trip ------------------------------------------------------------------------------------------

  ghost predicate AllLeaves(leaves: seq<Json>) {
    forall i :: 0 <= i < |leaves| ==> IsLeaf(leaves[i])
  }

  /** The tree holds exactly the values `leaves` where the OID of the entry `e` leads: texts, numbers or
      booleans. */
  ghost predicate Stored(root: Json, e: Entry, leaves: seq<Json>) {
    && AllLeaves(leaves)
    && forall m: nat :: e.isArray || m == 0 ==>
      && Fits(root, SlotOf(e, m))
      && Get(root, SlotOf(e, m)) == if m < |leaves| then leaves[m] else Null
  }

  /** After the call number `m`: either the value number `m` was returned and the cursor stands
      behind it, or nothing was and nothing will be. */
  ghost predicate Answered(r: (Fetch, Cursor), root: Json, e: Entry, leaves: seq<Json>, m: nat)
    requires AllLeaves(leaves)
  {
    if m < |leaves| then
      && r.0 == Text(leaves[m].text)
      && if e.isArray then InFront(r.1, ArrayOf(root, e), Tags(e)[|Tags(e)| - 1], m + 1) else Exhausted(r.1)
    else r.0 == Nothing && Exhausted(r.1)
  }

  function ArrayOf(root: Json, e: Entry): Json {
    Get(root, Keys(Tags(e)[..|Tags(e)| - 1]))
  }

  lemma SlotIsAhead(e: Entry, m: nat)
    requires e.isArray
    ensures SlotOf(e, m) == Ahead(Tags(e), 0, m)
  {
    var tags, n := Tags(e), |Tags(e)| - 1;
    assert tags[0..n] == tags[..n];
  }

  lemma FirstAnswers(root: Json, e: Entry, leaves: seq<Json>)
    requires Stored(root, e, leaves)
    ensures Answered(First(root, Tags(e)), root, e, leaves, 0)
  {
    var tags := Tags(e);
    if e.isArray {
      forall m: nat ensures Fits(root, Ahead(tags, 0, m)) {
        SlotIsAhead(e, m);
        assert Fits(root, SlotOf(e, m));
      }
      SlotIsAhead(e, 0);
      assert tags[0..|tags| - 1] == tags[..|tags| - 1];
      WalkFindsArray(Start(root), tags, 0, 0);
    } else {
      assert tags[0..] == tags;
      assert Fits(root, SlotOf(e, 0));
      WalkFindsPlain(Start(root), tags, 0);
    }
  }

  lemma CellOfArray(root: Json, e: Entry, m: nat)
    requires e.isArray
    ensures Get(root, SlotOf(e, m)) == Get(ArrayOf(root, e), Cell(Tags(e)[|Tags(e)| - 1], m))
  {
    var tags, n := Tags(e), |Tags(e)| - 1;
    GetAppend(root, Keys(tags[..n]), Cell(tags[n], m));
    assert SlotOf(e, m) == Keys(tags[..n]) + Cell(tags[n], m);
  }

  lemma {:induction false} CallAnswers(root: Json, e: Entry, leaves: seq<Json>, m: nat)
    requires Stored(root, e, leaves) && (!e.isArray ==> |leaves| <= 1)
    ensures Answered(Call(root, Tags(e), m), root, e, leaves, m)
  {
    if m == 0 {
      FirstAnswers(root, e, leaves);
    } else {
      CallAnswers(root, e, leaves, m - 1);
      if e.isArray && m - 1 < |leaves| {
        var c := Call(root, Tags(e), m - 1).1;
        CellOfArray(root, e, m);
        assert Fits(root, SlotOf(e, m));
        NextReadsCell(c, ArrayOf(root, e), Tags(e)[|Tags(e)| - 1], m);
      }
    }
  }

  /** Texts as JSON strings. */
  function Strs(texts: seq<string>): (leaves: seq<Json>)
    ensures |leaves| == |texts| && forall i :: 0 <= i < |texts| ==> leaves[i] == Str(texts[i])
  {
    if texts == [] then [] else Strs(texts[..|texts| - 1]) + [Str(texts[|texts| - 1])]
  }

  lemma SchemaIsStored(schema: seq<Entry>, a: nat)
    requires NonConflicting(schema) && a < |schema|
    ensures WriteSchema(Obj(map[]), schema).Ok?
    ensures Stored(WriteSchema(Obj(map[]), schema).value, schema[a], Strs(Written(schema[a])))
  {
    TreeOfSchema(schema);
    var root := WriteSchema(Obj(map[]), schema).value;
    forall m: nat | schema[a].isArray || m == 0
      ensures Fits(root, SlotOf(schema[a], m))
      ensures Get(root, SlotOf(schema[a], m))
           == if m < |Written(schema[a])| then Str(Written(schema[a])[m]) else Null
    {
      assert SlotHolds(root, schema, |schema|, 0, a, m);
    }
  }

  /** Round trip: in the tree of a schema without conflicts, the first call for the OID of an entry
      and the calls for its next elements return the written values one after the other, and from
      then on nothing, however long another column of the same array is. */
  lemma RoundTrip(schema: seq<Entry>, a: nat, m: nat)
    requires NonConflicting(schema) && a < |schema|
    ensures WriteSchema(Obj(map[]), schema).Ok?
    ensures Call(WriteSchema(Obj(map[]), schema).value, Tags(schema[a]), m).0
         == if m < |Written(schema[a])| then Text(Written(schema[a])[m]) else Nothing
  {
    SchemaIsStored(schema, a);
    CallAnswers(WriteSchema(Obj(map[]), schema).value, schema[a], Strs(Written(schema[a])), m);
  }

  /** The values of an entry come back exactly when its OID has at most seven tags or it had no
      value to begin with: the writer drops a longer OID without a word. */
  lemma ComesBackIff(schema: seq<Entry>, a: nat)
    requires NonConflicting(schema) && a < |schema| && (schema[a].isArray || |schema[a].values| <= 1)
    ensures WriteSchema(Obj(map[]), schema).Ok?
    ensures (forall m :: 0 <= m < |schema[a].values| ==>
              Call(WriteSchema(Obj(map[]), schema).value, Tags(schema[a]), m).0 == Text(schema[a].values[m]))
        <==> |Tags(schema[a])| <= 7 || schema[a].values == []
  {
    SchemaIsStored(schema, a);
    var root := WriteSchema(Obj(map[]), schema).value;
    forall m | 0 <= m < |schema[a].values|
      ensures Call(root, Tags(schema[a]), m).0 == Text(schema[a].values[m]) <==> |Tags(schema[a])| <= MAX_TAGS
    {
      RoundTrip(schema, a, m);
    }
    if schema[a].values != [] {
      assert Call(root, Tags(schema[a]), 0).0 == Text(schema[a].values[0]) <==> |Tags(schema[a])| <= MAX_TAGS;
    }
  }

  function Answer(texts: seq<string>, m: nat): Fetch {
    if m < |texts| then Text(texts[m]) else Nothing
  }

  /** The parser after call number `m`. */
  ghost predicate AtCall(parser: Parser, tags: seq<string>, m: nat, r: Fetch)
    reads parser
  {
    (r, parser.Model()) == Call(parser.root, tags, m)
  }

  method ReadFirst(parser: Parser, oid: string) returns (r: Fetch)
    requires First(parser.root, SplitOid(oid)).0 != Failed
    modifies parser
    ensures AtCall(parser, SplitOid(oid), 0, r)
  {
    r := parser.GetFirst(oid);
  }

  method ReadOn(parser: Parser, ghost tags: seq<string>, ghost m: nat, ghost r: Fetch) returns (next: Fetch)
    requires AtCall(parser, tags, m, r) && Call(parser.root, tags, m + 1).0 != Failed
    modifies parser
    ensures AtCall(parser, tags, m + 1, next)
  {
    next := parser.GetNext();
  }

  /** A client that asks for everything an OID has to offer. */
  method ReadAll(root: Json, oid: string, ghost expected: seq<string>) returns (texts: seq<string>)
    requires forall m: nat :: Call(root, SplitOid(oid), m).0 == Answer(expected, m)
    ensures texts == expected
  {
    var parser := new Parser(root);
    assert Call(root, SplitOid(oid), 0).0 == Answer(expected, 0);
    var r := ReadFirst(parser, oid);
    texts := [];
    while r.Text?
      invariant texts <= expected
      invariant r == Answer(expected, |texts|)
      invariant AtCall(parser, SplitOid(oid), |texts|, r)
      decreases |expected| - |texts|
    {
      ghost var m := |texts|;
      assert Call(root, SplitOid(oid), m + 1).0 == Answer(expected, m + 1);
      texts := texts + [r.text];
      r := ReadOn(parser, SplitOid(oid), m, r);
    }
  }

  /** The same round trip on the writer's and the parser's own methods. */
  method WriteThenRead(schema: seq<Entry>, a: nat) returns (texts: seq<string>)
    requires NonConflicting(schema) && a < |schema|
    ensures texts == Written(schema[a])
  {
    var tree := FromByte(schema);
    forall m: nat
      ensures tree.Ok? && Call(tree.value, Tags(schema[a]), m).0 == Answer(Written(schema[a]), m)
    {
      RoundTrip(schema, a, m);
    }
    RoundTrip(schema, a, 0);
    texts := ReadAll(tree.value, Oid(schema[a]), Written(schema[a]));
  }
}
