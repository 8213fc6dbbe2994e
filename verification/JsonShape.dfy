/** What the tree of a schema consists of, and that it holds nothing else. */
module JsonShape {
  import opened JsonValue
  import opened JsonWriter
  import opened JsonRoundTrip

  /** Does the path lead to a part of the value? A null that stands in an array or under a key is one. */
  predicate Exists(j: Json, p: Path)
    decreases p
  {
    p == [] ||
    match p[0]
    case Key(k) => j.Obj? && k in j.members && Exists(j.members[k], p[1..])
    case At(i) => j.Arr? && i < |j.items| && Exists(j.items[i], p[1..])
  }

  /** Does a write at `q` bring the part at `p` into being? These are the parts on the way to `q` and the
      elements in front of those. */
  predicate Creates(q: Path, p: Path)
    decreases p
  {
    p == [] ||
    (q != [] &&
     if p[0] == q[0] then Creates(q[1..], p[1..])
     else |p| == 1 && p[0].At? && q[0].At? && p[0].index < q[0].index)
  }

  /** The size of an array after a write to one of its elements. */
  lemma ArrayGrows(j: Json, i: nat, v: Json)
    requires j.Null? || j.Arr?
    ensures var t, was := WithChild(j, At(i), v), if j.Arr? then j.items else [];
      && t.Arr? && |t.items| == (if |was| > i + 1 then |was| else i + 1)
      && t.items[i] == v
      && forall k :: 0 <= k < |t.items| && k != i ==> t.items[k] == if k < |was| then was[k] else Null
  {
  }

  lemma ExistsInNull(j: Json, p: Path)
    requires j.Null?
    ensures Exists(j, p) <==> p == []
  {
  }

  /** One step of a write, seen from a path that takes the same step. */
  lemma SameStep(j: Json, step: Step, c: Json, p: Path)
    requires Indexable(j, step) && p != [] && p[0] == step
    ensures Exists(WithChild(j, step, c), p) <==> Exists(c, p[1..])
    ensures Exists(j, p) ==> Exists(Child(j, step), p[1..])
    ensures p[1..] != [] && Exists(Child(j, step), p[1..]) ==> Exists(j, p)
  {
    if step.At? {
      ArrayGrows(j, step.index, c);
    }
    ExistsInNull(Null, p[1..]);
  }

  /** And from one that takes another. */
  lemma OtherStep(j: Json, step: Step, c: Json, p: Path)
    requires Indexable(j, step) && p != [] && p[0] != step
    ensures Exists(WithChild(j, step, c), p) <==>
      Exists(j, p) || (|p| == 1 && p[0].At? && step.At? && p[0].index < step.index)
  {
    if step.At? {
      ArrayGrows(j, step.index, c);
      ExistsInNull(Null, p[1..]);
    }
  }

  /** A write of a text where there was nothing creates what is on the way to it and nothing else. */
  lemma {:induction false} PutCreates(j: Json, q: Path, text: string, p: Path)
    requires Fits(j, q) && Get(j, q).Null?
    ensures Put(j, q, Str(text)).Ok?
    ensures Exists(Put(j, q, Str(text)).value, p) <==> Exists(j, p) || Creates(q, p)
    decreases q
  {
    PutGet(j, q, Str(text));
    if q != [] && p != [] {
      PutGet(Child(j, q[0]), q[1..], Str(text));
      var c := Put(Child(j, q[0]), q[1..], Str(text)).value;
      if p[0] == q[0] {
        PutCreates(Child(j, q[0]), q[1..], text, p[1..]);
        SameStep(j, q[0], c, p);
      } else {
        OtherStep(j, q[0], c, p);
      }
    }
  }

  // ---- The tree after any number of writes -----------------------------------------------------------

  /** Is the value number `m` of entry `a` among those written so far? */
  predicate IsWritten(schema: seq<Entry>, i: nat, k: nat, a: nat, m: nat) {
    a < |schema| && (a < i || (a == i && m < k)) && m < |Written(schema[a])|
  }

  /** Some value written so far needs the part at `p`. */
  ghost predicate Needed(schema: seq<Entry>, i: nat, k: nat, p: Path) {
    exists a: nat, m: nat :: IsWritten(schema, i, k, a, m) && Creates(SlotOf(schema[a], m), p)
  }

  ghost predicate ShapedAt(root: Json, schema: seq<Entry>, i: nat, k: nat, p: Path) {
    Exists(root, p) <==> p == [] || Needed(schema, i, k, p)
  }

  ghost predicate Shaped(root: Json, schema: seq<Entry>, i: nat, k: nat) {
    forall p: Path :: ShapedAt(root, schema, i, k, p)
  }

  lemma NeededNext(schema: seq<Entry>, i: nat, k: nat, p: Path)
    requires i < |schema| && k < |Written(schema[i])|
    ensures Needed(schema, i, k + 1, p) <==> Needed(schema, i, k, p) || Creates(SlotOf(schema[i], k), p)
  {
    var next := k + 1;
    if Needed(schema, i, next, p) {
      var a: nat, m: nat :| IsWritten(schema, i, next, a, m) && Creates(SlotOf(schema[a], m), p);
      assert (a == i && m == k) || IsWritten(schema, i, k, a, m);
    }
    if Needed(schema, i, k, p) {
      var a: nat, m: nat :| IsWritten(schema, i, k, a, m) && Creates(SlotOf(schema[a], m), p);
      assert IsWritten(schema, i, next, a, m);
    }
    assert IsWritten(schema, i, next, i, k);
  }

  lemma NeededNextEntry(schema: seq<Entry>, i: nat, k: nat, p: Path)
    requires i < |schema| && k >= |Written(schema[i])|
    ensures Needed(schema, i + 1, 0, p) <==> Needed(schema, i, k, p)
  {
    var next := i + 1;
    if Needed(schema, next, 0, p) {
      var a: nat, m: nat :| IsWritten(schema, next, 0, a, m) && Creates(SlotOf(schema[a], m), p);
      assert IsWritten(schema, i, k, a, m);
    }
    if Needed(schema, i, k, p) {
      var a: nat, m: nat :| IsWritten(schema, i, k, a, m) && Creates(SlotOf(schema[a], m), p);
      assert IsWritten(schema, next, 0, a, m);
    }
  }

  lemma WriteOneShapes(root: Json, schema: seq<Entry>, i: nat, k: nat)
    requires NonConflicting(schema) && i < |schema| && k < |Written(schema[i])|
    requires Holds(root, schema, i, k) && Shaped(root, schema, i, k)
    ensures var r := Put(root, SlotOf(schema[i], k), Str(Written(schema[i])[k]));
      r.Ok? && Shaped(r.value, schema, i, k + 1)
  {
    var q, text := SlotOf(schema[i], k), Written(schema[i])[k];
    assert SlotHolds(root, schema, i, k, i, k);
    PutGet(root, q, Str(text));
    var r, next := Put(root, q, Str(text)).value, k + 1;
    forall p: Path ensures ShapedAt(r, schema, i, next, p) {
      assert ShapedAt(root, schema, i, k, p);
      PutCreates(root, q, text, p);
      NeededNext(schema, i, k, p);
    }
  }

  lemma {:induction false} WriteValuesShapes(root: Json, schema: seq<Entry>, i: nat, k: nat)
    requires NonConflicting(schema) && i < |schema| && Holds(root, schema, i, k) && Shaped(root, schema, i, k)
    ensures WriteValues(root, schema[i], k).Ok?
    ensures Shaped(WriteValues(root, schema[i], k).value, schema, i + 1, 0)
    decreases |Written(schema[i])| - k
  {
    if k < |Written(schema[i])| {
      WriteOneHolds(root, schema, i, k);
      WriteOneShapes(root, schema, i, k);
      WriteValuesShapes(Put(root, SlotOf(schema[i], k), Str(Written(schema[i])[k])).value, schema, i, k + 1);
    } else {
      var next := i + 1;
      forall p: Path ensures ShapedAt(root, schema, next, 0, p) {
        assert ShapedAt(root, schema, i, k, p);
        NeededNextEntry(schema, i, k, p);
      }
    }
  }

  lemma {:induction false} WriteSchemaShapes(root: Json, schema: seq<Entry>, i: nat)
    requires NonConflicting(schema) && i <= |schema| && Holds(root, schema, i, 0) && Shaped(root, schema, i, 0)
    ensures WriteSchema(root, schema[i..]).Ok?
    ensures Shaped(WriteSchema(root, schema[i..]).value, schema, |schema|, 0)
    decreases |schema| - i
  {
    if i < |schema| {
      WriteValuesHolds(root, schema, i, 0);
      WriteValuesShapes(root, schema, i, 0);
      assert schema[i..][0] == schema[i] && schema[i..][1..] == schema[i + 1..];
      WriteSchemaShapes(WriteValues(root, schema[i], 0).value, schema, i + 1);
    }
  }

  /** A value of the schema needs the part at `p`. */
  ghost predicate Wanted(schema: seq<Entry>, p: Path) {
    exists a: nat, m: nat ::
      a < |schema| && m < |Written(schema[a])| && Creates(SlotOf(schema[a], m), p)
  }

  /** The tree of a schema without conflicts holds nothing else: a part exists in it, be it a member of
      an object or an element of an array, if and only if a value of the schema needs it. */
  lemma NothingElse(schema: seq<Entry>, p: Path)
    requires NonConflicting(schema)
    ensures WriteSchema(Obj(map[]), schema).Ok?
    ensures Exists(WriteSchema(Obj(map[]), schema).value, p) <==> p == [] || Wanted(schema, p)
  {
    EmptyHolds(schema);
    forall q: Path ensures ShapedAt(Obj(map[]), schema, 0, 0, q) {
    }
    assert schema[0..] == schema;
    WriteSchemaShapes(Obj(map[]), schema, 0);
    assert ShapedAt(WriteSchema(Obj(map[]), schema).value, schema, |schema|, 0, p);
    if Wanted(schema, p) {
      var a: nat, m: nat :| a < |schema| && m < |Written(schema[a])| && Creates(SlotOf(schema[a], m), p);
      assert IsWritten(schema, |schema|, 0, a, m);
    }
  }

  // ---- How long an array is ----------------------------------------------------------------------------

  /** The path of the array that an entry is a column of. */
  function ArrayTags(e: Entry): seq<string> {
    Tags(e)[..|Tags(e)| - 1]
  }

  /** Among keys, only the same keys lead to an array element. */
  lemma {:induction false} CreatesElement(tags: seq<string>, k: nat, tail: Path, own: seq<string>, m: nat)
    ensures Creates(Keys(tags) + [At(k)] + tail, Keys(own) + [At(m)]) <==> tags == own && m <= k
    decreases tags
  {
    var q, p := Keys(tags) + [At(k)] + tail, Keys(own) + [At(m)];
    if tags != [] && own != [] {
      assert q[1..] == Keys(tags[1..]) + [At(k)] + tail && p[1..] == Keys(own[1..]) + [At(m)];
      assert tags == [tags[0]] + tags[1..] && own == [own[0]] + own[1..];
      CreatesElement(tags[1..], k, tail, own[1..], m);
    } else if tags == [] && own == [] {
      assert q[0] == At(k) && p == [At(m)] && p[1..] == [];
    }
  }

  lemma {:induction false} KeysCreateNoElement(tags: seq<string>, own: seq<string>, m: nat)
    ensures !Creates(Keys(tags), Keys(own) + [At(m)])
    decreases tags
  {
    var p := Keys(own) + [At(m)];
    if tags != [] && own != [] {
      assert p[1..] == Keys(own[1..]) + [At(m)];
      KeysCreateNoElement(tags[1..], own[1..], m);
    }
  }

  lemma EntryCreatesElement(e: Entry, k: nat, own: seq<string>, m: nat)
    ensures Creates(SlotOf(e, k), Keys(own) + [At(m)]) <==> e.isArray && ArrayTags(e) == own && m <= k
  {
    var tags, n := Tags(e), |Tags(e)| - 1;
    if e.isArray {
      var tail: Path := if tags[n] == "" then [] else [Key(tags[n])];
      CreatesElement(tags[..n], k, tail, own, m);
    } else {
      KeysCreateNoElement(tags, own, m);
    }
  }

  lemma {:induction false} ExistsAppend(j: Json, p: Path, m: nat)
    ensures Exists(j, p + [At(m)]) <==> Exists(j, p) && Get(j, p).Arr? && m < |Get(j, p).items|
    decreases p
  {
    if p == [] {
      assert p + [At(m)] == [At(m)] && [At(m)][1..] == [];
    } else {
      assert (p + [At(m)])[1..] == p[1..] + [At(m)];
      ExistsAppend(Child(j, p[0]), p[1..], m);
      ExistsInNull(Null, p[1..] + [At(m)]);
    }
  }

  /** Entry `b` is a column of the array behind these tags, and has a value number `m`. */
  predicate ColumnHas(schema: seq<Entry>, own: seq<string>, b: nat, m: nat) {
    b < |schema| && schema[b].isArray && ArrayTags(schema[b]) == own && m < |Written(schema[b])|
  }

  /** The array of a written column has an element number `m` if and only if some column of the same array
      has a value of that number: it is exactly as long as the longest of them. */
  lemma ArrayIsAsLong(schema: seq<Entry>, a: nat, m: nat)
    requires NonConflicting(schema) && a < |schema| && schema[a].isArray && Written(schema[a]) != []
    ensures WriteSchema(Obj(map[]), schema).Ok?
    ensures var list := ArrayOf(WriteSchema(Obj(map[]), schema).value, schema[a]);
      list.Arr? &&
      (m < |list.items| <==> exists b: nat :: ColumnHas(schema, ArrayTags(schema[a]), b, m))
  {
    var own := ArrayTags(schema[a]);
    ElementExistsIff(schema, own, 0);
    ElementExistsIff(schema, own, m);
    var root := WriteSchema(Obj(map[]), schema).value;
    assert ColumnHas(schema, own, a, 0);
    ExistsAppend(root, Keys(own), 0);
    ExistsAppend(root, Keys(own), m);
  }

  lemma ElementExistsIff(schema: seq<Entry>, own: seq<string>, m: nat)
    requires NonConflicting(schema)
    ensures WriteSchema(Obj(map[]), schema).Ok?
    ensures Exists(WriteSchema(Obj(map[]), schema).value, Keys(own) + [At(m)]) <==>
      exists b: nat :: ColumnHas(schema, own, b, m)
  {
    var p := Keys(own) + [At(m)];
    NothingElse(schema, p);
    if Wanted(schema, p) {
      var b: nat, k: nat :| b < |schema| && k < |Written(schema[b])| && Creates(SlotOf(schema[b], k), p);
      EntryCreatesElement(schema[b], k, own, m);
      assert ColumnHas(schema, own, b, m);
    }
    if b: nat :| ColumnHas(schema, own, b, m) {
      EntryCreatesElement(schema[b], m, own, m);
      assert Creates(SlotOf(schema[b], m), p);
    }
  }
}
