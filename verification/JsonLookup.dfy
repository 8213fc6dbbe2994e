/** What the OID cursor finds on any tree, written by FromByte or not. */
module JsonLookup {
  import opened Basics
  import opened JsonValue
  import opened JsonWriter
  import opened JsonCursor
  import opened JsonRoundTrip

  // ---- Through objects -----------------------------------------------------------------------------

  function PlainTags(names: seq<string>): (tags: seq<Tag>)
    ensures |tags| == |names|
  {
    if names == [] then [] else [Tag(names[0], "", 0, 0)] + PlainTags(names[1..])
  }

  /** The first tags lead through objects, as far as tag number `n`. */
  ghost predicate Objects(j: Json, tags: seq<string>, i: nat, n: nat)
    requires i <= n <= |tags|
  {
    forall k :: i <= k < n ==> Get(j, Keys(tags[i..k])).Obj?
  }

  lemma ObjectsStep(j: Json, tags: seq<string>, i: nat, n: nat)
    requires i < n <= |tags| && Objects(j, tags, i, n)
    ensures j.Obj? && Objects(Child(j, Key(tags[i])), tags, i + 1, n)
    ensures Get(j, Keys(tags[i..n])) == Get(Child(j, Key(tags[i])), Keys(tags[i + 1..n]))
  {
    assert tags[i..i] == [] && Get(j, Keys(tags[i..i])).Obj?;
    var u := Child(j, Key(tags[i]));
    KeysStep(tags, i, n);
    assert Keys(tags[i..n])[1..] == Keys(tags[i + 1..n]);
    var next := i + 1;
    forall k | next <= k < n ensures Get(u, Keys(tags[next..k])).Obj? {
      KeysStep(tags, i, k);
      assert Keys(tags[i..k])[1..] == Keys(tags[next..k]);
      assert Get(j, Keys(tags[i..k])).Obj?;
    }
  }

  function After(c: Cursor, tags: seq<string>, i: nat, n: nat): Cursor
    requires i <= n <= |tags|
  {
    c.(value := Get(c.value, Keys(tags[i..n])), tags := c.tags + PlainTags(tags[i..n]))
  }

  /** The walk follows the objects to a value that is neither missing nor an array. */
  lemma {:induction false} WalkObjects(c: Cursor, tags: seq<string>, i: nat, n: nat, arrays: nat)
    requires i <= n <= |tags| && Objects(c.value, tags, i, n)
    requires var v := Get(c.value, Keys(tags[i..n])); !v.Null? && !v.Arr?
    ensures Walk(c, tags, i, arrays) == Walk(After(c, tags, i, n), tags, n, arrays)
    decreases n - i
  {
    if i == n {
      assert tags[i..n] == [];
      assert After(c, tags, i, n) == c;
    } else {
      var u := Child(c.value, Key(tags[i]));
      ObjectsStep(c.value, tags, i, n);
      if i + 1 == n {
        assert tags[i + 1..n] == [];
      } else {
        assert tags[i + 1..i + 1] == [] && Get(u, Keys(tags[i + 1..i + 1])).Obj?;
      }
      var d := c.(value := u, tags := c.tags + [Tag(tags[i], "", 0, 0)]);
      WalkObjects(d, tags, i + 1, n, arrays);
      assert tags[i..n] == [tags[i]] + tags[i + 1..n];
      assert After(d, tags, i + 1, n).tags == After(c, tags, i, n).tags;
    }
  }

  /** Behind the objects: the value that tag number `n - 1` names is missing or an array. */
  lemma WalkToLast(c: Cursor, tags: seq<string>, n: nat)
    requires 0 < n <= |tags| && Objects(c.value, tags, 0, n)
    ensures var d := After(c, tags, 0, n - 1);
      && Walk(c, tags, 0, 0) == Walk(d, tags, n - 1, 0)
      && d.value.Obj? && Child(d.value, Key(tags[n - 1])) == Get(c.value, Keys(tags[..n]))
  {
    assert Get(c.value, Keys(tags[0..n - 1])).Obj?;
    WalkObjects(c, tags, 0, n - 1, 0);
    assert tags[0..n - 1] == tags[..n - 1];
    KeysLast(tags, n);
    GetAppend(c.value, Keys(tags[..n - 1]), [Key(tags[n - 1])]);
    OneKey(Get(c.value, Keys(tags[..n - 1])), tags[n - 1]);
  }

  lemma OneKey(j: Json, name: string)
    ensures Get(j, [Key(name)]) == Child(j, Key(name))
  {
    assert [Key(name)][1..] == [];
  }

  lemma KeysLast(tags: seq<string>, n: nat)
    requires 0 < n <= |tags|
    ensures Keys(tags[..n]) == Keys(tags[..n - 1]) + [Key(tags[n - 1])]
  {
  }

  /** Where the first `n` tags lead through objects to a value that is no object, or to the end of the
      OID: a text, a number or a boolean at the end is returned as text, one in front of the end is an
      error, and a missing value or a container at the end is nothing. */
  lemma FirstThroughObjects(root: Json, tags: seq<string>, n: nat)
    requires 0 < n <= |tags| && Objects(root, tags, 0, n)
    ensures var v := Get(root, Keys(tags[..n]));
      && (IsLeaf(v) && n == |tags| ==> First(root, tags).0 == Text(v.text))
      && (IsLeaf(v) && n < |tags| ==> First(root, tags).0 == Failed)
      && (v.Null? ==> First(root, tags).0 == Nothing)
      && ((v.Obj? || v.Arr?) && n == |tags| ==> First(root, tags).0 == Nothing)
  {
    var c, v := Start(root), Get(root, Keys(tags[..n]));
    assert tags[0..n] == tags[..n];
    if v.Null? || v.Arr? {
      WalkToLast(c, tags, n);
    } else {
      WalkObjects(c, tags, 0, n, 0);
    }
  }

  /** An OID that ends at an array finds nothing, and asking for the next element then fails: the parser
      remembers the array but no tag of it, and reads past its list of tags. */
  lemma NextBehindBareArray(root: Json, tags: seq<string>)
    requires tags != [] && Objects(root, tags, 0, |tags|) && Get(root, Keys(tags[..|tags|])).Arr?
    ensures Call(root, tags, 0).0 == Nothing && Call(root, tags, 1).0 == Failed
  {
    WalkToLast(Start(root), tags, |tags|);
    FirstThroughObjects(root, tags, |tags|);
    assert Call(root, tags, 1) == Next(Call(root, tags, 0).1);
  }

  // ---- Through an array to another -------------------------------------------------------------------

  lemma PutSame(j: Json, name: string)
    requires j.Obj? && name in j.members
    ensures WithChild(j, Key(name), Child(j, Key(name))) == j
  {
    assert j.members[name := j.members[name]] == j.members;
  }

  lemma TouchFirst(a: Json, name: string)
    requires a.Arr? && a.items != [] && a.items[0].Obj? && name in a.items[0].members
    ensures Touch(a, [At(0), Key(name)]) == Ok(a) && Touch(a, [At(0)]) == Ok(a)
    ensures Get(a, [At(0), Key(name)]) == a.items[0].members[name] && Get(a, [At(0)]) == a.items[0]
  {
    var p, q: Path := [At(0), Key(name)], [Key(name)];
    assert p[1..] == q && q[1..] == [] && [At(0)][1..] == [];
    OneKey(a.items[0], name);
    PutSame(a.items[0], name);
    assert Put(a.items[0], q, Get(a.items[0], q)) == Ok(a.items[0]);
    assert a.items[0 := a.items[0]] == a.items;
  }

  /** An array whose first element holds another container under the next tag: the walk goes on in that
      first element. */
  lemma ThroughArray(c: Cursor, tags: seq<string>, i: nat, arrays: nat, a: Json) returns (d: Cursor)
    requires |c.tags| == i && i + 1 < |tags| && arrays <= 2
    requires Indexable(c.value, Key(tags[i])) && a == Child(c.value, Key(tags[i]))
    requires a.Arr? && a.items != [] && a.items[0].Obj?
    requires tags[i + 1] != "" && tags[i + 1] in a.items[0].members
    requires var next := a.items[0].members[tags[i + 1]]; next.Obj? || next.Arr?
    ensures Walk(c, tags, i, arrays) == Walk(d, tags, i + 1, arrays + 1)
    ensures d.value == a.items[0] && |d.tags| == i + 1
  {
    TouchFirst(a, tags[i + 1]);
    d := Cursor(a.items[0], a, "", Some(i), c.tags + [Tag(tags[i], "", 0, |a.items|)]);
  }

  /** The outer array stands behind `n` tags, and from its first element the other tags lead to the
      values `leaves` in an inner array. */
  ghost predicate TwoArrays(root: Json, tags: seq<string>, n: nat, leaves: seq<Json>) {
    && 0 < n < |tags| - 1 && Objects(root, tags, 0, n)
    && AllLeaves(leaves) && leaves != [] && tags[n] != ""
    && var a := Get(root, Keys(tags[..n]));
       && a.Arr? && a.items != [] && a.items[0].Obj?
       && forall m: nat ::
            && Fits(a.items[0], Ahead(tags, n, m))
            && Get(a.items[0], Ahead(tags, n, m)) == if m < |leaves| then leaves[m] else Null
  }

  function InnerArray(root: Json, tags: seq<string>, n: nat): Json
    requires n < |tags|
  {
    var a := Get(root, Keys(tags[..n]));
    if a.Arr? && a.items != [] then Get(a.items[0], Keys(tags[n..|tags| - 1])) else Null
  }

  lemma NextIsContainer(j: Json, tags: seq<string>, n: nat)
    requires n < |tags| - 1 && j.Obj? && Fits(j, Ahead(tags, n, 0)) && !Get(j, Ahead(tags, n, 0)).Null?
    ensures tags[n] in j.members && (j.members[tags[n]].Obj? || j.members[tags[n]].Arr?)
  {
    AheadStep(j, tags, n, 0);
    var u := Child(j, Key(tags[n]));
    var rest := Ahead(tags, n + 1, 0);
    if u.Null? {
      GetOfNull(rest);
    }
    assert rest != [];
    assert Fits(u, rest) && Indexable(u, rest[0]);
  }

  lemma IntoFirstElement(root: Json, tags: seq<string>, n: nat, a: Json) returns (d: Cursor)
    requires 0 < n < |tags| - 1 && Objects(root, tags, 0, n) && a == Get(root, Keys(tags[..n]))
    requires a.Arr? && a.items != [] && a.items[0].Obj? && tags[n] != "" && tags[n] in a.items[0].members
    requires var next := a.items[0].members[tags[n]]; next.Obj? || next.Arr?
    ensures Walk(Start(root), tags, 0, 0) == Walk(d, tags, n, 1) && d.value == a.items[0] && |d.tags| == n
  {
    WalkToLast(Start(root), tags, n);
    d := ThroughArray(After(Start(root), tags, 0, n - 1), tags, n - 1, 0, a);
  }

  lemma FindInner(d: Cursor, tags: seq<string>, n: nat, leaves: seq<Json>)
    requires n < |tags| - 1 && |d.tags| == n && AllLeaves(leaves) && leaves != []
    requires forall m: nat :: Fits(d.value, Ahead(tags, n, m))
    requires Get(d.value, Ahead(tags, n, 0)) == leaves[0]
    ensures Found(Walk(d, tags, n, 1), leaves[0], true, Get(d.value, Keys(tags[n..|tags| - 1])), tags[|tags| - 1])
  {
    WalkFindsArray(d, tags, n, 1);
  }

  lemma FirstOfTwo(root: Json, tags: seq<string>, n: nat, leaves: seq<Json>)
    requires TwoArrays(root, tags, n, leaves)
    ensures Found(Walk(Start(root), tags, 0, 0), leaves[0], true, InnerArray(root, tags, n), tags[|tags| - 1])
  {
    var a := Get(root, Keys(tags[..n]));
    assert Get(a.items[0], Ahead(tags, n, 0)) == leaves[0];
    NextIsContainer(a.items[0], tags, n);
    var d := IntoFirstElement(root, tags, n, a);
    FindInner(d, tags, n, leaves);
  }

  lemma InnerCell(root: Json, tags: seq<string>, n: nat, leaves: seq<Json>, m: nat)
    requires TwoArrays(root, tags, n, leaves)
    ensures Get(InnerArray(root, tags, n), Cell(tags[|tags| - 1], m)) == if m < |leaves| then leaves[m] else Null
  {
    var first := Get(root, Keys(tags[..n])).items[0];
    GetAppend(first, Keys(tags[n..|tags| - 1]), Cell(tags[|tags| - 1], m));
    assert Get(first, Ahead(tags, n, m)) == if m < |leaves| then leaves[m] else Null;
  }

  ghost predicate InnerAnswered(r: (Fetch, Cursor), b: Json, elem: string, leaves: seq<Json>, m: nat)
    requires AllLeaves(leaves)
  {
    if m < |leaves| then r.0 == Text(leaves[m].text) && InFront(r.1, b, elem, m + 1)
    else r.0 == Nothing && Exhausted(r.1)
  }

  lemma {:induction false} InnerCalls(root: Json, tags: seq<string>, n: nat, leaves: seq<Json>, m: nat)
    requires TwoArrays(root, tags, n, leaves)
    ensures InnerAnswered(Call(root, tags, m), InnerArray(root, tags, n), tags[|tags| - 1], leaves, m)
  {
    if m == 0 {
      FirstOfTwo(root, tags, n, leaves);
    } else {
      InnerCalls(root, tags, n, leaves, m - 1);
      if m - 1 < |leaves| {
        InnerCell(root, tags, n, leaves, m);
        NextReadsCell(Call(root, tags, m - 1).1, InnerArray(root, tags, n), tags[|tags| - 1], m);
      }
    }
  }

  /** An OID through two arrays reads the inner array of the outer one's first element: one value per
      call, in order, and then nothing. The other elements of the outer array are not looked at. */
  lemma ThroughTwoArrays(root: Json, tags: seq<string>, n: nat, leaves: seq<Json>, m: nat)
    requires TwoArrays(root, tags, n, leaves)
    ensures Call(root, tags, m).0 == if m < |leaves| then Text(leaves[m].text) else Nothing
  {
    InnerCalls(root, tags, n, leaves, m);
  }

  // ---- How many arrays -----------------------------------------------------------------------------------

  /** Arrays within arrays, each of one object, around the member `last` of value `v`. */
  function Nest(names: seq<string>, last: string, v: Json): Json {
    if names == [] then Obj(map[last := v]) else Obj(map[names[0] := Arr([Nest(names[1..], last, v)])])
  }

  ghost predicate Named(names: seq<string>) {
    forall i :: 0 <= i < |names| ==> names[i] != ""
  }

  lemma EnterLastColumn(c: Cursor, tags: seq<string>, i: nat, arrays: nat, v: Json)
    requires |c.tags| == i && |tags| == i + 2 && arrays <= 2 && IsLeaf(v) && tags[i + 1] != ""
    requires c.value == Obj(map[tags[i] := Arr([Obj(map[tags[i + 1] := v])])])
    ensures var w := Walk(c, tags, i, arrays); w.Ok? && w.value.1 && w.value.0.value == v
  {
    TouchFirst(Arr([Obj(map[tags[i + 1] := v])]), tags[i + 1]);
  }

  lemma {:induction false} WalkNest(c: Cursor, names: seq<string>, last: string, v: Json, i: nat)
    requires i < |names| && i <= 3 && Named(names) && last != "" && IsLeaf(v)
    requires |c.tags| == i && c.value == Nest(names[i..], last, v)
    ensures var w := Walk(c, names + [last], i, i);
      w.Ok? && (w.value.1 <==> |names| <= 3) && (w.value.1 ==> w.value.0.value == v)
    decreases |names| - i
  {
    var tags, rest := names + [last], names[i + 1..];
    assert names[i..][0] == names[i] && names[i..][1..] == rest;
    if i < 3 {
      if rest == [] {
        EnterLastColumn(c, tags, i, i, v);
      } else {
        assert rest[0] == names[i + 1] == tags[i + 1];
        var d := ThroughArray(c, tags, i, i, Arr([Nest(rest, last, v)]));
        WalkNest(d, names, last, v, i + 1);
      }
    }
  }

  /** A value behind arrays within arrays is found if and only if there are at most three of them. */
  lemma AtMostThreeArrays(names: seq<string>, last: string, v: Json)
    requires names != [] && Named(names) && last != "" && IsLeaf(v)
    ensures First(Nest(names, last, v), names + [last]).0 == if |names| <= 3 then Text(v.text) else Nothing
  {
    assert names[0..] == names;
    WalkNest(Start(Nest(names, last, v)), names, last, v, 0);
  }
}
