/** FromByte: a JSON tree built from a schema of dotted paths. */
module JsonWriter {
  import opened JsonValue
  import opened Strings

  /** One line of a schema. `values` are the texts the parameter yields for index 0, 1, and so on;
      a parameter that is no array has at most one. */
  datatype Entry = Entry(path: string, name: string, isArray: bool, values: seq<string>)

  function SplitOid(oid: string): (tags: seq<string>)
    ensures tags != []
  {
    Split(oid, '.')
  }

  function Oid(e: Entry): string {
    e.path + "." + e.name
  }

  function Tags(e: Entry): (tags: seq<string>)
    ensures |tags| >= 2
  {
    SplitAtDelimiter(e.path, '.', e.name);
    assert Oid(e) == e.path + ['.'] + e.name;
    SplitOid(Oid(e))
  }

  /** Names with dots between them. */
  function Dotted(names: seq<string>): string
    requires names != []
  {
    if |names| == 1 then names[0] else names[0] + "." + Dotted(names[1..])
  }

  lemma {:induction false} SplitDotted(names: seq<string>)
    requires names != [] && forall i :: 0 <= i < |names| ==> '.' !in names[i]
    ensures SplitOid(Dotted(names)) == names
  {
    SplitWithout(names[0], '.');
    if |names| > 1 {
      SplitDotted(names[1..]);
      SplitAtDelimiter(names[0], '.', Dotted(names[1..]));
      assert names[0] + "." == names[0] + ['.'];
    }
  }

  /** The tags of an entry are the dot-separated names of its path, and its own name. */
  lemma TagsAreNames(names: seq<string>, name: string, isArray: bool, values: seq<string>)
    requires names != [] && '.' !in name && forall i :: 0 <= i < |names| ==> '.' !in names[i]
    ensures Tags(Entry(Dotted(names), name, isArray, values)) == names + [name]
  {
    var e := Entry(Dotted(names), name, isArray, values);
    SplitAtDelimiter(e.path, '.', e.name);
    SplitDotted(names);
    SplitWithout(name, '.');
    assert Oid(e) == e.path + ['.'] + e.name;
  }

  function Keys(tags: seq<string>): (p: Path)
    ensures |p| == |tags| && forall i :: 0 <= i < |tags| ==> p[i] == Key(tags[i])
  {
    if tags == [] then [] else [Key(tags[0])] + Keys(tags[1..])
  }

  /** Where the writer puts the value number `k`. The last tag of an array names a column of its
      elements, and the empty name stands for the elements themselves. */
  function Slot(tags: seq<string>, isArray: bool, k: nat): Path
    requires |tags| >= 2
  {
    var n := |tags| - 1;
    if !isArray then Keys(tags)
    else Keys(tags[..n]) + [At(k)] + (if tags[n] == "" then [] else [Key(tags[n])])
  }

  /** The longest OID that the writer's case list knows. */
  const MAX_TAGS := 7

  /** The values that reach the tree: all of an array, one of anything else, none of an OID with
      too many tags. */
  function Written(e: Entry): seq<string> {
    if |Tags(e)| > MAX_TAGS then []
    else if e.isArray || e.values == [] then e.values
    else e.values[..1]
  }

  function WriteValues(root: Json, e: Entry, k: nat): Result<Json>
    decreases |Written(e)| - k
  {
    if k >= |Written(e)| then Ok(root)
    else match Put(root, Slot(Tags(e), e.isArray, k), Str(Written(e)[k]))
      case Ok(r) => WriteValues(r, e, k + 1)
      case Thrown => Thrown
  }

  function WriteSchema(root: Json, schema: seq<Entry>): Result<Json>
    decreases schema
  {
    if schema == [] then Ok(root)
    else match WriteValues(root, schema[0], 0)
      case Ok(r) => WriteSchema(r, schema[1..])
      case Thrown => Thrown
  }

  /** The inner loop of FromByte: the values of one entry, until there is none left. */
  method WriteEntry(start: Json, e: Entry) returns (r: Result<Json>)
    ensures r == WriteValues(start, e, 0)
  {
    var root, tags, index, finish := start, SplitOid(Oid(e)), 0, e.values == [];
    ghost var done := 0;
    while !finish
      invariant finish ==> done >= |Written(e)|
      invariant !finish ==> done == index < |e.values| && (e.isArray || index == 0)
      invariant WriteValues(root, e, done) == WriteValues(start, e, 0)
      decreases |e.values| - done, !finish
    {
      finish := true;
      if |tags| <= MAX_TAGS {
        var written := Put(root, Slot(tags, e.isArray, index), Str(e.values[index]));
        if written.Thrown? {
          return Thrown;
        }
        root := written.value;
      }
      done := done + 1;
      if e.isArray {
        index := index + 1;
        if index < |e.values| {
          finish := false;
        }
      }
    }
    r := Ok(root);
  }

  /** FromByte, up to the text output. A thrown jsoncpp exception ends it. */
  method FromByte(schema: seq<Entry>) returns (r: Result<Json>)
    ensures r == WriteSchema(Obj(map[]), schema)
  {
    var root := Obj(map[]);
    for i := 0 to |schema|
      invariant WriteSchema(root, schema[i..]) == WriteSchema(Obj(map[]), schema)
    {
      assert schema[i..][0] == schema[i] && schema[i..][1..] == schema[i + 1..];
      var written := WriteEntry(root, schema[i]);
      if written.Thrown? {
        return Thrown;
      }
      root := written.value;
    }
    r := Ok(root);
    assert schema[|schema|..] == [];
  }
}
